/** Byte-wise string order, as the source compares strings. */
module Text {
  /** Byte-wise string order: negative, zero or positive. */
  function CompareText(a: string, b: string): (r: int)
    ensures r == 0 <==> a == b
  {
    if a == [] && b == [] then 0
    else if a == [] then -1
    else if b == [] then 1
    else if a[0] < b[0] then -1
    else if a[0] > b[0] then 1
    else
      assert a == [a[0]] + a[1..] && b == [b[0]] + b[1..];
      CompareText(a[1..], b[1..])
  }

  lemma {:induction false} CompareTextFlips(a: string, b: string)
    ensures CompareText(a, b) == -CompareText(b, a)
  {
    if a != [] && b != [] { CompareTextFlips(a[1..], b[1..]); }
  }

  lemma {:induction false} CompareTextTrans(a: string, b: string, c: string)
    requires CompareText(a, b) > 0 && CompareText(b, c) > 0
    ensures CompareText(a, c) > 0
  {
    if a != [] && b != [] && c != [] && a[0] == b[0] == c[0] { CompareTextTrans(a[1..], b[1..], c[1..]); }
  }

  predicate TextLess(a: string, b: string) { CompareText(a, b) < 0 }

  /** The order is total and transitive. */
  lemma TextLessIsTotal(a: string, b: string, c: string)
    ensures !TextLess(a, a)
    ensures TextLess(a, b) ==> !TextLess(b, a)
    ensures a != b ==> TextLess(a, b) || TextLess(b, a)
    ensures !TextLess(b, a) && !TextLess(c, b) ==> !TextLess(c, a)
  {
    CompareTextFlips(a, b);
    CompareTextFlips(b, c);
    CompareTextFlips(a, c);
    if CompareText(b, a) > 0 && CompareText(c, b) > 0 { CompareTextTrans(c, b, a); }
  }
}
