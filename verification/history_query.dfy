/**
 * The filter part of the `/api/history` handler: the request's `days` and `type` values
 * become a WHERE clause drawn from a fixed vocabulary of conditions, plus the list of
 * values bound to its `%s` placeholders.
 */
module HistoryQuery {
  import opened PyText
  import Taxonomy
  import Detect

  /** A value bound to a `%s` placeholder. */
  datatype SqlParam = Text(s: string) | Number(n: int)

  /** The two conditions the handler can append; each stands for a fixed SQL fragment. */
  datatype Condition = RecentDays | TypeEquals

  /** The fixed text of each condition: a `%s` placeholder between two `%`-free pieces. */
  function ConditionText(c: Condition): string {
    match c
    case RecentDays => RecentDaysPre + "%s" + RecentDaysPost
    case TypeEquals => TypeEqualsPre + "%s"
  }

  const RecentDaysPre: string := "created_at >= DATE_SUB(NOW(), INTERVAL "
  const RecentDaysPost: string := " DAY)"
  const TypeEqualsPre: string := "mushroom_type = "

  const AllRows: string := "1=1"
  const AndSep: string := " AND "

  /** The short type codes of the history page and the stored labels they stand for. */
  const TypeMapping: map<string, string> := map["songrong" := "松茸", "jizong" := "鸡枞", "niugan" := "牛肝菌"]

  /** `type_mapping.get(code, code)`: a known code becomes its label, any other value passes through. */
  function MapTypeCode(code: string): (r: string)
    ensures code in TypeMapping ==> r == TypeMapping[code]
    ensures r == code <==> code !in TypeMapping
  {
    if code in TypeMapping then TypeMapping[code] else code
  }

  /** 鸡枞 is not a taxonomy label, so the `jizong` filter matches no label the detector assigns. */
  lemma JizongMatchesNoDetection(cls: int)
    ensures Detect.ClassLabel(cls) != MapTypeCode("jizong")
  {
    Taxonomy.TaxonomyShape();
    assert MapTypeCode("jizong") !in Taxonomy.MushroomClasses;
  }

  lemma ConditionPiecesPercentFree()
    ensures '%' !in RecentDaysPre && '%' !in RecentDaysPost && '%' !in TypeEqualsPre
  {
  }

  lemma RecentDaysShape()
    ensures var t := ConditionText(RecentDays);
      Placeholders(t) == 1 && t != "" && t[|t| - 1] != '%'
  {
    ConditionPiecesPercentFree();
    OnePlaceholder(RecentDaysPre, RecentDaysPost);
    var t := ConditionText(RecentDays);
    assert t[|t| - 1] == RecentDaysPost[|RecentDaysPost| - 1];
  }

  lemma TypeEqualsShape()
    ensures var t := ConditionText(TypeEquals);
      Placeholders(t) == 1 && t != "" && t[|t| - 1] != '%'
  {
    ConditionPiecesPercentFree();
    assert TypeEqualsPre + "%s" == TypeEqualsPre + "%s" + "";
    OnePlaceholder(TypeEqualsPre, "");
  }

  /** Every condition holds exactly one placeholder and does not end in `%`. */
  lemma ConditionShape(c: Condition)
    ensures var t := ConditionText(c);
      Placeholders(t) == 1 && t != "" && t[|t| - 1] != '%'
  {
    match c
    case RecentDays => RecentDaysShape();
    case TypeEquals => TypeEqualsShape();
  }

  /** The texts of a list of conditions, in order. */
  function Texts(conditions: seq<Condition>): (r: seq<string>)
    ensures |r| == |conditions|
    ensures forall i :: 0 <= i < |conditions| ==> r[i] == ConditionText(conditions[i])
  {
    if conditions == [] then []
    else Texts(conditions[..|conditions| - 1]) + [ConditionText(conditions[|conditions| - 1])]
  }

  /**
   * `' AND '.join(conditions) if conditions else '1=1'`. The clause is a function of the
   * condition kinds alone, so no value from the request can reach its text, and it holds
   * one placeholder per condition.
   */
  function WhereClause(conditions: seq<Condition>): (r: string)
    ensures Placeholders(r) == |conditions|
    ensures r == AllRows <==> conditions == []
    ensures r != "" && r[|r| - 1] != '%'
  {
    if conditions == [] then
      NoPercentNoPlaceholder(AllRows);
      AllRows
    else
      var texts := Texts(conditions);
      forall i | 0 <= i < |texts|
        ensures texts[i] != "" && texts[i][|texts[i]| - 1] != '%' && Placeholders(texts[i]) == 1
      {
        ConditionShape(conditions[i]);
      }
      JoinPlaceholders(texts, AndSep);
      Join(texts, AndSep)
  }

  /**
   * Builds the conditions and their parameters as the handler does, appending one
   * condition and one parameter per active filter (`'all'` switches a filter off).
   */
  method BuildFilter(days: string, typeFilter: string) returns (whereClause: string, params: seq<SqlParam>)
    ensures whereClause == WhereClause((if days != "all" then [RecentDays] else []) +
                                       (if typeFilter != "all" then [TypeEquals] else []))
    ensures params == (if days != "all" then [Text(days)] else []) +
                      (if typeFilter != "all" then [Text(MapTypeCode(typeFilter))] else [])
    ensures Placeholders(whereClause) == |params|
    ensures whereClause == AllRows <==> days == "all" && typeFilter == "all"
  {
    var conditions: seq<Condition> := [];
    params := [];
    if days != "all" {
      conditions := conditions + [RecentDays];
      params := params + [Text(days)];
    }
    if typeFilter != "all" {
      conditions := conditions + [TypeEquals];
      params := params + [Text(MapTypeCode(typeFilter))];
    }
    assert conditions == (if days != "all" then [RecentDays] else []) +
                         (if typeFilter != "all" then [TypeEquals] else []);
    whereClause := WhereClause(conditions);
  }

  /** The counting query. */
  function CountQuery(whereClause: string): string {
    CountQueryHead + whereClause
  }

  const CountQueryHead: string := "SELECT COUNT(*) FROM analysis_records WHERE "

  /**
   * The page query: the same filter, newest first, with a LIMIT and an OFFSET placeholder
   * (the layout whitespace of the source's triple-quoted text is collapsed to single spaces).
   */
  function PageQuery(whereClause: string): string {
    PageQueryHead + whereClause + PageQueryTail
  }

  const PageQueryHead: string := "SELECT * FROM analysis_records WHERE "
  const PageQueryTail: string := " ORDER BY created_at DESC LIMIT %s OFFSET %s"

  /** `params + [per_page, offset]` */
  function PageParams(params: seq<SqlParam>, perPage: int, offset: int): seq<SqlParam> {
    params + [Number(perPage), Number(offset)]
  }

  lemma PageQueryTailPlaceholders()
    ensures Placeholders(PageQueryTail) == 2
  {
    assert PageQueryTail == " ORDER BY created_at DESC LIMIT " + "%s" + " OFFSET " + "%s" + "";
    TwoPlaceholders(" ORDER BY created_at DESC LIMIT ", " OFFSET ", "");
  }

  lemma QueryHeadsPercentFree()
    ensures '%' !in CountQueryHead && '%' !in PageQueryHead
  {
  }

  /** Placeholders of a `%`-free head, a clause not ending in `%`, and a tail. */
  lemma Wrapped(head: string, w: string, tail: string)
    requires '%' !in head
    requires w != "" && w[|w| - 1] != '%'
    ensures Placeholders(head + w + tail) == Placeholders(w) + Placeholders(tail)
  {
    PlaceholdersConcat(w, tail);
    assert head + w + tail == head + (w + tail);
    PercentFreePrefix(head, w + tail);
  }

  lemma PageQueryPlaceholders(w: string)
    requires w != "" && w[|w| - 1] != '%'
    ensures Placeholders(PageQuery(w)) == Placeholders(w) + 2
  {
    PageQueryTailPlaceholders();
    QueryHeadsPercentFree();
    Wrapped(PageQueryHead, w, PageQueryTail);
  }

  /** Both queries the handler runs carry exactly as many placeholders as the tuples bound to them. */
  lemma QueriesMatchParams(conditions: seq<Condition>, params: seq<SqlParam>, perPage: int, offset: int)
    requires |params| == |conditions|
    ensures Placeholders(CountQuery(WhereClause(conditions))) == |params|
    ensures Placeholders(PageQuery(WhereClause(conditions))) == |PageParams(params, perPage, offset)|
  {
    var w := WhereClause(conditions);
    QueryHeadsPercentFree();
    PercentFreePrefix(CountQueryHead, w);
    PageQueryPlaceholders(w);
  }
}
