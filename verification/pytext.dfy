/**
 * The few Python string and path builtins that the application's handlers rely on,
 * stated over `string` (a sequence of characters): `str.startswith`, `os.path.basename`,
 * `os.path.join`, `str(int)` and `sep.join(list)`; plus a count of the `%s` markers in a
 * query text, to which the database driver binds the parameter tuple.
 */
module PyText {

  /** `s.startswith(prefix)` */
  predicate StartsWith(s: string, prefix: string) {
    |prefix| <= |s| && s[..|prefix|] == prefix
  }

  /**
   * `os.path.basename(p)` on POSIX: everything after the last `/`, or all of `p`
   * when it holds no `/`.
   */
  function Basename(p: string): string {
    if |p| == 0 then []
    else if p[|p| - 1] == '/' then []
    else Basename(p[..|p| - 1]) + [p[|p| - 1]]
  }

  /** The basename is a `/`-free suffix of the path, preceded by a `/` unless it is all of it. */
  lemma {:induction false} BasenameIsLastComponent(p: string)
    ensures var r := Basename(p);
      && '/' !in r
      && |r| <= |p| && p[|p| - |r|..] == r
      && (|r| < |p| ==> p[|p| - |r| - 1] == '/')
  {
    if |p| > 0 && p[|p| - 1] != '/' {
      var init := p[..|p| - 1];
      BasenameIsLastComponent(init);
      var r0 := Basename(init);
      assert Basename(p) == r0 + [p[|p| - 1]];
      assert p[|p| - |r0| - 1..] == init[|init| - |r0|..] + [p[|p| - 1]];
    }
  }

  /** A path without any `/` is its own basename. */
  lemma {:induction false} BasenameOfPlainName(p: string)
    requires '/' !in p
    ensures Basename(p) == p
  {
    if |p| > 0 {
      BasenameOfPlainName(p[..|p| - 1]);
      assert p[..|p| - 1] + [p[|p| - 1]] == p;
    }
  }

  /** Taking the basename twice changes nothing. */
  lemma BasenameIdempotent(p: string)
    ensures Basename(Basename(p)) == Basename(p)
  {
    BasenameIsLastComponent(p);
    BasenameOfPlainName(Basename(p));
  }

  /** Whatever precedes a `/` that ends `prefix` has no influence on the basename. */
  lemma {:induction false} BasenameAfterPrefix(prefix: string, name: string)
    requires prefix != "" && prefix[|prefix| - 1] == '/'
    ensures Basename(prefix + name) == Basename(name)
  {
    var p := prefix + name;
    if |name| == 0 {
      assert p == prefix;
    } else {
      var init := name[..|name| - 1];
      var last := name[|name| - 1];
      assert p[..|p| - 1] == prefix + init;
      assert p[|p| - 1] == last;
      assert name == init + [last];
      if last != '/' {
        BasenameAfterPrefix(prefix, init);
        assert Basename(p) == Basename(prefix + init) + [last];
      }
    }
  }

  /** Appending to a text keeps every prefix it started with. */
  lemma StartsWithAppend(s: string, prefix: string, t: string)
    requires StartsWith(s, prefix)
    ensures StartsWith(s + t, prefix) && StartsWith(s + t, s)
  {
    assert (s + t)[..|prefix|] == s[..|prefix|];
    assert (s + t)[..|s|] == s;
  }

  /**
   * `os.path.join(a, b)` on POSIX with two components: an absolute `b` discards `a`;
   * otherwise a `/` is inserted unless `a` is empty or already ends with one.
   */
  function PathJoin(a: string, b: string): (r: string)
    ensures StartsWith(b, "/") ==> r == b
    ensures !StartsWith(b, "/") ==> |r| >= |b| && r[|r| - |b|..] == b
  {
    if StartsWith(b, "/") then b
    else if a == "" || a[|a| - 1] == '/' then a + b
    else a + "/" + b
  }

  /** Joining a file name onto a directory that does not end in `/` keeps the file's basename. */
  lemma BasenameOfJoin(dir: string, name: string)
    requires dir != "" && dir[|dir| - 1] != '/'
    ensures Basename(PathJoin(dir, name)) == Basename(name)
  {
    if !StartsWith(name, "/") {
      assert dir + "/" + name == (dir + "/") + name;
      BasenameAfterPrefix(dir + "/", name);
    }
  }

  // ---------------------------------------------------------------------------
  // str(int): decimal rendering of an integer, with its inverse

  const Digits: string := "0123456789"

  predicate IsDigit(c: char) {
    '0' <= c <= '9'
  }

  function DigitValue(c: char): (d: nat)
    requires IsDigit(c)
    ensures d < 10
  {
    c as int - '0' as int
  }

  /** The decimal digits of `n`, most significant first, without leading zeros. */
  function NatToString(n: nat): (s: string)
    ensures |s| >= 1
    ensures forall i :: 0 <= i < |s| ==> IsDigit(s[i])
    ensures n >= 10 ==> s[0] != '0'
  {
    if n < 10 then [Digits[n]]
    else NatToString(n / 10) + [Digits[n % 10]]
  }

  /** `str(i)` for a Python int: a leading `-` for negative values, then the digits. */
  function IntToString(i: int): (s: string)
  {
    if i < 0 then "-" + NatToString(-i) else NatToString(i)
  }

  /** The value of a non-empty string of decimal digits. */
  function ParseNat(s: string): nat
    requires |s| >= 1
    requires forall i :: 0 <= i < |s| ==> IsDigit(s[i])
  {
    if |s| == 1 then DigitValue(s[0])
    else ParseNat(s[..|s| - 1]) * 10 + DigitValue(s[|s| - 1])
  }

  /** `int(s)` on what `str` produced: a leading `-` negates. */
  function ParseInt(s: string): int
    requires |s| >= 1
    requires s[0] == '-' ==> |s| >= 2
    requires forall i :: 0 < i < |s| ==> IsDigit(s[i])
    requires s[0] != '-' ==> IsDigit(s[0])
  {
    if s[0] == '-' then -(ParseNat(s[1..]) as int) else ParseNat(s)
  }

  lemma {:induction false} ParseNatToString(n: nat)
    ensures ParseNat(NatToString(n)) == n
  {
    if n >= 10 {
      var s := NatToString(n);
      assert s[..|s| - 1] == NatToString(n / 10);
      ParseNatToString(n / 10);
    }
  }

  /** Decimal rendering round-trips: parsing `str(i)` gives back `i`. */
  lemma ParseIntToString(i: int)
    ensures var s := IntToString(i);
      |s| >= 1 && (s[0] == '-' ==> |s| >= 2) && (s[0] != '-' ==> IsDigit(s[0])) &&
      (forall k :: 0 < k < |s| ==> IsDigit(s[k])) &&
      ParseInt(s) == i
  {
    var s := IntToString(i);
    if i < 0 {
      assert s[1..] == NatToString(-i);
      ParseNatToString(-i);
    } else {
      ParseNatToString(i);
    }
  }

  /** Distinct integers render to distinct strings. */
  lemma IntToStringInjective(i: int, j: int)
    requires IntToString(i) == IntToString(j)
    ensures i == j
  {
    ParseIntToString(i);
    ParseIntToString(j);
  }

  // ---------------------------------------------------------------------------
  // sep.join(parts) and counting `%s` placeholders

  /** `sep.join(parts)` */
  function Join(parts: seq<string>, sep: string): string
  {
    if |parts| == 0 then ""
    else if |parts| == 1 then parts[0]
    else Join(parts[..|parts| - 1], sep) + sep + parts[|parts| - 1]
  }

  /**
   * The number of `%s` markers in a query text: the positions to which the database
   * driver binds the elements of the parameter tuple, in order.
   */
  function Placeholders(s: string): nat
  {
    if |s| < 2 then 0
    else (if s[0] == '%' && s[1] == 's' then 1 else 0) + Placeholders(s[1..])
  }

  /** A text without `%` holds no placeholder. */
  lemma {:induction false} NoPercentNoPlaceholder(s: string)
    requires '%' !in s
    ensures Placeholders(s) == 0
  {
    if |s| >= 2 {
      assert s[1..][0] == s[1];
      NoPercentNoPlaceholder(s[1..]);
    }
  }

  /**
   * Placeholders add up under concatenation unless a `%` ending `a` meets an `s`
   * starting `b`.
   */
  lemma {:induction false} PlaceholdersConcat(a: string, b: string)
    requires a == "" || a[|a| - 1] != '%'
    ensures Placeholders(a + b) == Placeholders(a) + Placeholders(b)
  {
    if |a| == 0 {
      assert a + b == b;
    } else if |a| == 1 {
      assert (a + b)[1..] == b;
      assert Placeholders(a) == 0;
      if |b| >= 1 {
        assert (a + b)[0] == a[0];
      }
    } else {
      assert (a + b)[1..] == a[1..] + b;
      assert a[1..][|a[1..]| - 1] == a[|a| - 1];
      PlaceholdersConcat(a[1..], b);
    }
  }

  /** A text made of a `%`-free prefix, one `%s` and a `%`-free suffix holds one placeholder. */
  lemma OnePlaceholder(pre: string, post: string)
    requires '%' !in pre && '%' !in post
    ensures Placeholders(pre + "%s" + post) == 1
  {
    NoPercentNoPlaceholder(pre);
    NoPercentNoPlaceholder(post);
    PlaceholdersConcat(pre, "%s");
    PlaceholdersConcat(pre + "%s", post);
  }

  /** Placeholders of `a + sep + b`, none of whose seams can form a new `%s`. */
  lemma PlaceholdersAround(a: string, sep: string, b: string)
    requires a != "" && a[|a| - 1] != '%'
    requires '%' !in sep
    ensures Placeholders(a + sep + b) == Placeholders(a) + Placeholders(b)
  {
    NoPercentNoPlaceholder(sep);
    PlaceholdersConcat(a, sep);
    assert (a + sep)[|a + sep| - 1] != '%' by {
      if sep != "" { assert (a + sep)[|a + sep| - 1] == sep[|sep| - 1]; }
    }
    PlaceholdersConcat(a + sep, b);
  }

  /** Joining texts that each hold one placeholder and do not end in `%`, with a `%`-free separator. */
  lemma {:induction false} JoinPlaceholders(parts: seq<string>, sep: string)
    requires parts != []
    requires '%' !in sep
    requires forall i :: 0 <= i < |parts| ==>
      parts[i] != "" && parts[i][|parts[i]| - 1] != '%' && Placeholders(parts[i]) == 1
    ensures var j := Join(parts, sep);
      Placeholders(j) == |parts| && j != "" && j[|j| - 1] != '%'
  {
    if |parts| > 1 {
      var init := parts[..|parts| - 1];
      var last := parts[|parts| - 1];
      JoinPlaceholders(init, sep);
      var j0 := Join(init, sep);
      PlaceholdersAround(j0, sep, last);
      assert (j0 + sep + last)[|j0 + sep + last| - 1] == last[|last| - 1];
    }
  }

  /** A `%`-free prefix adds no placeholder. */
  lemma PercentFreePrefix(head: string, w: string)
    requires '%' !in head
    ensures Placeholders(head + w) == Placeholders(w)
  {
    NoPercentNoPlaceholder(head);
    PlaceholdersConcat(head, w);
  }

  /** A text with two `%s` between `%`-free pieces holds two placeholders. */
  lemma TwoPlaceholders(pre: string, mid: string, post: string)
    requires '%' !in pre && '%' !in mid && '%' !in post
    ensures Placeholders(pre + "%s" + mid + "%s" + post) == 2
  {
    var a, b := pre + "%s" + mid, "%s" + post;
    assert pre + "%s" + mid + "%s" + post == a + b;
    OnePlaceholder(pre, mid);
    assert b == "" + "%s" + post;
    OnePlaceholder("", post);
    assert a[|a| - 1] != '%' by {
      if mid == "" { assert a[|a| - 1] == 's'; } else { assert a[|a| - 1] == mid[|mid| - 1]; }
    }
    PlaceholdersConcat(a, b);
  }
}
