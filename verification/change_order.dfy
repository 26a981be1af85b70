/** The identity of a change and the total order in which changes are compared.

    A change (an available script, an applied journal entry, or the optional cap)
    is identified by the folder it belongs to and its number inside that folder.
    Comparison is folder first, ordinal character by character, then by number;
    like `CompareTo`, it answers with a sign: negative, zero or positive. */
module ChangeOrder {

  datatype ChangeKey = ChangeKey(folder: string, scriptNumber: int)

  /** Ordinal comparison of two folder names. */
  function CompareText(a: string, b: string): (c: int)
    ensures -1 <= c <= 1
    decreases |a|
  {
    if |a| == 0 then (if |b| == 0 then 0 else -1)
    else if |b| == 0 then 1
    else if a[0] < b[0] then -1
    else if b[0] < a[0] then 1
    else CompareText(a[1..], b[1..])
  }

  function CompareNumbers(a: int, b: int): int {
    if a < b then -1 else if b < a then 1 else 0
  }

  /** Sign of the comparison of two change identities: folder first, then number. */
  function Compare(a: ChangeKey, b: ChangeKey): int {
    var byFolder := CompareText(a.folder, b.folder);
    if byFolder != 0 then byFolder else CompareNumbers(a.scriptNumber, b.scriptNumber)
  }

  /** `a` is at or below `b`: what `a.CompareTo(b) <= 0` asks. */
  predicate AtMost(a: ChangeKey, b: ChangeKey) {
    Compare(a, b) <= 0
  }

  /** `a` is strictly below `b`. */
  predicate Below(a: ChangeKey, b: ChangeKey) {
    Compare(a, b) < 0
  }

  lemma {:induction false} CompareTextZeroIffEqual(a: string, b: string)
    ensures CompareText(a, b) == 0 <==> a == b
    decreases |a|
  {
    if |a| > 0 && |b| > 0 && a[0] == b[0] {
      CompareTextZeroIffEqual(a[1..], b[1..]);
      assert a == [a[0]] + a[1..];
      assert b == [b[0]] + b[1..];
    }
  }

  lemma {:induction false} CompareTextFlip(a: string, b: string)
    ensures CompareText(b, a) == -CompareText(a, b)
    decreases |a|
  {
    if |a| > 0 && |b| > 0 && a[0] == b[0] {
      CompareTextFlip(a[1..], b[1..]);
    }
  }

  lemma {:induction false} CompareTextTransitive(a: string, b: string, c: string)
    requires CompareText(a, b) <= 0 && CompareText(b, c) <= 0
    ensures CompareText(a, c) <= 0
    decreases |a|
  {
    if |a| > 0 && |b| > 0 && |c| > 0 && a[0] == b[0] && b[0] == c[0] {
      CompareTextTransitive(a[1..], b[1..], c[1..]);
    }
  }

  /** Two identities compare equal exactly when they are the same identity. */
  lemma CompareZeroIffEqual(a: ChangeKey, b: ChangeKey)
    ensures Compare(a, b) == 0 <==> a == b
  {
    CompareTextZeroIffEqual(a.folder, b.folder);
  }

  /** Swapping the operands negates the answer. */
  lemma CompareFlip(a: ChangeKey, b: ChangeKey)
    ensures Compare(b, a) == -Compare(a, b)
  {
    CompareTextFlip(a.folder, b.folder);
  }

  /** Any two identities are ordered one way or the other. */
  lemma AtMostTotal(a: ChangeKey, b: ChangeKey)
    ensures AtMost(a, b) || AtMost(b, a)
  {
    CompareFlip(a, b);
  }

  lemma AtMostTransitive(a: ChangeKey, b: ChangeKey, c: ChangeKey)
    requires AtMost(a, b) && AtMost(b, c)
    ensures AtMost(a, c)
  {
    CompareTextZeroIffEqual(a.folder, b.folder);
    CompareTextZeroIffEqual(b.folder, c.folder);
    if CompareText(a.folder, b.folder) == 0 || CompareText(b.folder, c.folder) == 0 {
    } else {
      CompareTextTransitive(a.folder, b.folder, c.folder);
      CompareTextZeroIffEqual(a.folder, c.folder);
      if a.folder == c.folder {
        CompareTextFlip(a.folder, b.folder);
      }
    }
  }

  /** An identity above the cap stays above it for every identity that follows it. */
  lemma AboveCapStaysAbove(a: ChangeKey, b: ChangeKey, cap: ChangeKey)
    requires AtMost(a, b) && !AtMost(a, cap)
    ensures !AtMost(b, cap)
  {
    if AtMost(b, cap) {
      AtMostTransitive(a, b, cap);
    }
  }
}
