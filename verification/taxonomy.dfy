/**
 * The fixed vocabulary of the application: the twelve species the detector was trained on,
 * in the order of its class indices, the labels it treats as edible, and the sentinel for
 * an image in which nothing was found.
 */
module Taxonomy {

  /** `MUSHROOM_CLASSES`: class index `i` of the detector names species `MushroomClasses[i]`. */
  const MushroomClasses: seq<string> := [
    "奶浆菌", "干巴菌", "松茸", "松露", "牛肝菌", "珊瑚菌",
    "竹荪", "羊肚菌", "见手青", "青头菌", "鸡枞菌", "鸡油菌"
  ]

  /** The labels the detection handler calls edible (note `鸡枞`, not the taxonomy's `鸡枞菌`). */
  const EdibleList: seq<string> := ["松茸", "鸡枞", "牛肝菌", "竹荪", "羊肚菌", "鸡油菌"]

  /** Label reported when the detector found nothing. */
  const Unrecognized: string := "未识别"

  /** Label reported for a class index outside the taxonomy: `未知(` + index + `)`. */
  const UnknownPrefix: string := "未知("

  /** The taxonomy has twelve distinct names, none of them the sentinel and none starting like an unknown label. */
  lemma TaxonomyShape()
    ensures |MushroomClasses| == 12
    ensures forall i, j :: 0 <= i < j < |MushroomClasses| ==> MushroomClasses[i] != MushroomClasses[j]
    ensures forall i :: 0 <= i < |MushroomClasses| ==>
      |MushroomClasses[i]| >= 2 && MushroomClasses[i][0] != UnknownPrefix[0]
    ensures Unrecognized !in MushroomClasses
  {
  }
}
