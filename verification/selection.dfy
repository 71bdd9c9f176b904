/**
 The small decisions around the result table: when the two context-menu
 actions are enabled, what a double-click opens, and how the size column
 orders results.
 */
module Selection {
  import opened Documents

  /** No selected result is an email. */
  predicate NoEmails(sel: seq<Document>) {
    forall i :: 0 <= i < |sel| ==> !sel[i].isEmail
  }

  /** "open" is enabled for a non-empty selection that holds no email. */
  method OpenEnabled(sel: seq<Document>) returns (enabled: bool)
    ensures enabled <==> |sel| > 0 && NoEmails(sel)
  {
    if |sel| == 0 {
      return false;
    }
    for i := 0 to |sel|
      invariant forall j :: 0 <= j < i ==> !sel[j].isEmail
    {
      if sel[i].isEmail {
        return false;
      }
    }
    return true;
  }

  /** "open_parent" is enabled for any non-empty selection, emails included. */
  function OpenParentEnabled(sel: seq<Document>): (enabled: bool)
    ensures enabled <==> |sel| > 0
  {
    |sel| != 0
  }

  /** Whenever "open" is enabled, so is "open_parent". */
  lemma OpenEnabledImpliesOpenParent(sel: seq<Document>)
    requires |sel| > 0 && NoEmails(sel)
    ensures OpenParentEnabled(sel)
  {
  }

  /**
   The documents a double-click hands to `launchFiles`: the first selected
   result alone, unless the selection is empty or that result is an email.
   */
  function DoubleClickTargets(sel: seq<Document>): (docs: seq<Document>)
    ensures |docs| <= 1
    ensures |docs| == 1 <==> |sel| > 0 && !sel[0].isEmail
    ensures |docs| == 1 ==> docs[0] == sel[0]
    ensures NoEmails(docs)
  {
    if |sel| == 0 || sel[0].isEmail then [] else [sel[0]]
  }

  /** A 64-bit `long`. */
  newtype Long = x: int | -0x8000_0000_0000_0000 <= x < 0x8000_0000_0000_0000

  /** `Longs.compare`: the sign of `a - b`, as -1, 0 or 1. */
  function CompareLongs(a: Long, b: Long): int {
    if a < b then -1 else if a > b then 1 else 0
  }

  /** The size column's comparator: larger sizes first. */
  function CompareSize(a: Long, b: Long): (c: int)
    ensures c < 0 <==> a > b
    ensures c == 0 <==> a == b
    ensures c > 0 <==> a < b
    ensures -1 <= c <= 1
  {
    -1 * CompareLongs(a, b)
  }

  /** The size comparator is a valid comparator: antisymmetric and transitive. */
  lemma CompareSizeIsComparator(a: Long, b: Long, c: Long)
    ensures CompareSize(a, b) == -CompareSize(b, a)
    ensures CompareSize(a, b) < 0 && CompareSize(b, c) < 0 ==> CompareSize(a, c) < 0
    ensures CompareSize(a, b) == 0 ==> CompareSize(a, c) == CompareSize(b, c)
  {
  }
}
