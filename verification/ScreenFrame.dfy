/**
 * Cutting a pane's screen to the event size budget: at a line end outside any
 * terminal escape sequence, as late as still fits.
 */
module ScreenFrame {
  import opened Common

  const MAX_FRAME_BYTES := 64 * 1024
  const NL: byte := 10
  const ESC: byte := 0x1b

  // ----- where a screen may be cut

  /** The escape recogniser: control sequences (section 5.4 of ECMA-48) and control strings. */
  datatype Scan = Ground | Escape | Csi | ControlString | ControlStringEnd

  function Advance(s: Scan, b: byte): Scan {
    match s
    case Ground => if b == ESC then Escape else Ground
    case Escape =>
      if b == 0x5b then Csi                                   // [
      else if b in {0x5d, 0x50, 0x58, 0x5e, 0x5f} then ControlString   // ] P X ^ _
      else Ground
    case Csi => if 0x40 <= b <= 0x7e then Ground else Csi
    case ControlString => if b == 0x07 then Ground else if b == ESC then ControlStringEnd else ControlString
    case ControlStringEnd => if b == 0x5c then Ground else if b != ESC then ControlString else ControlStringEnd
  }

  /** The recogniser's state after the first n bytes. */
  function ScanAt(text: seq<byte>, n: nat): Scan
    requires n <= |text|
  {
    if n == 0 then Ground else Advance(ScanAt(text, n - 1), text[n - 1])
  }

  /** A cut after a newline the recogniser saw in its ground state. */
  predicate IsCut(text: seq<byte>, n: nat) {
    0 < n <= |text| && text[n - 1] == NL && ScanAt(text, n) == Ground
  }

  /** Every cut of a text, in order. */
  method LineBoundaries(text: seq<byte>) returns (cuts: seq<nat>)
    ensures forall n: nat :: n in cuts <==> IsCut(text, n)
    ensures forall i, j :: 0 <= i < j < |cuts| ==> cuts[i] < cuts[j]
  {
    var state := Ground;
    cuts := [];
    var index := 0;
    while index < |text|
      invariant 0 <= index <= |text| && state == ScanAt(text, index)
      invariant forall n: nat :: n in cuts <==> n <= index && IsCut(text, n)
      invariant forall i, j :: 0 <= i < j < |cuts| ==> cuts[i] < cuts[j]
      invariant forall i :: 0 <= i < |cuts| ==> cuts[i] <= index
    {
      var value := text[index];
      match state {
        case Ground =>
          if value == ESC { state := Escape; }
        case Escape =>
          if value == 0x5b {
            state := Csi;
          } else if value == 0x5d || value == 0x50 || value == 0x58 || value == 0x5e || value == 0x5f {
            state := ControlString;
          } else {
            state := Ground;
          }
        case Csi =>
          if 0x40 <= value && value <= 0x7e { state := Ground; }
        case ControlString =>
          if value == 0x07 { state := Ground; } else if value == ESC { state := ControlStringEnd; }
        case ControlStringEnd =>
          if value == 0x5c { state := Ground; } else if value != ESC { state := ControlString; }
      }
      assert state == ScanAt(text, index + 1);
      if value == NL && state == Ground { cuts := cuts + [index + 1]; }
      index := index + 1;
    }
  }

  // ----- the size of an event

  /** A detail is text: runes, and bytes that are no UTF-8. */
  datatype Piece = Rune(c: char) | BadByte

  /** The detail as runes: a byte that is no UTF-8 becomes a replacement character, which encodes differently. */
  function Runes(detail: seq<Piece>): seq<Piece> {
    seq(|detail|, i requires 0 <= i < |detail| => if detail[i].BadByte? then Rune('\U{FFFD}') else detail[i])
  }

  datatype Frame = Frame(text: seq<byte>, truncated: bool, detail: seq<Piece>)

  /**
   * What JSON encoding costs: the frame around the variable parts, the text,
   * each piece of the detail, and the detail's own field when it is present.
   */
  datatype Sizes = Sizes(around: bool -> nat, text: seq<byte> -> nat, piece: Piece -> nat, detailField: nat)

  function DetailSize(z: Sizes, detail: seq<Piece>): nat {
    if detail == [] then 0 else DetailSize(z, detail[..|detail| - 1]) + z.piece(detail[|detail| - 1])
  }

  function Size(z: Sizes, f: Frame): nat {
    z.around(f.truncated) + z.text(f.text) + (if f.detail == [] then 0 else z.detailField + DetailSize(z, f.detail))
  }

  /** A newline ends whatever it follows, so text encodes line by line. */
  ghost predicate TextLaw(z: Sizes) {
    z.text([]) == 0 &&
    forall a: seq<byte>, b: seq<byte> :: a != [] && a[|a| - 1] == NL ==> z.text(a + b) == z.text(a) + z.text(b)
  }

  predicate Fits(z: Sizes, f: Frame) { Size(z, f) <= MAX_FRAME_BYTES }

  /** Cutting later never makes the event smaller. */
  lemma LaterCutsAreLarger(z: Sizes, f: Frame, a: nat, b: nat)
    requires TextLaw(z) && a <= b <= |f.text| && (a == 0 || f.text[a - 1] == NL)
    ensures Size(z, f.(text := f.text[..a])) <= Size(z, f.(text := f.text[..b]))
  {
    if a > 0 {
      assert f.text[..b] == f.text[..a] + f.text[a..b];
      assert z.text(f.text[..a] + f.text[a..b]) == z.text(f.text[..a]) + z.text(f.text[a..b]);
    } else {
      assert f.text[..0] == [];
    }
  }

  lemma {:induction false} LongerDetailsAreLarger(z: Sizes, f: Frame, a: nat, b: nat)
    requires a <= b <= |f.detail|
    ensures Size(z, f.(detail := f.detail[..a])) <= Size(z, f.(detail := f.detail[..b]))
    decreases b
  {
    if a < b {
      LongerDetailsAreLarger(z, f, a, b - 1);
      assert f.detail[..b][..b - 1] == f.detail[..b - 1];
    }
  }

  // ----- encoding

  datatype Encoded = Sent(frame: Frame) | TooBig

  /** n is the best place to cut f's text: a cut or 0, fitting, with no later cut that fits. */
  ghost predicate BestCut(z: Sizes, f: Frame, n: nat) {
    && (n == 0 || IsCut(f.text, n)) && n <= |f.text| && Fits(z, f.(text := f.text[..n]))
    && forall m: nat :: IsCut(f.text, m) && Fits(z, f.(text := f.text[..m])) ==> m <= n
  }

  /** n is the longest part of f's detail that fits. */
  ghost predicate BestDetail(z: Sizes, f: Frame, n: nat) {
    && n <= |f.detail| && Fits(z, f.(detail := f.detail[..n]))
    && forall m: nat :: m <= |f.detail| && Fits(z, f.(detail := f.detail[..m])) ==> m <= n
  }

  /**
   * Encodes a frame within the budget. What is sent always fits; a frame that
   * fits is sent as it is; else the text is cut at the latest safe line end
   * that fits; only when no text fits at all is the detail cut, as late as
   * fits; and only when that is not enough is the frame refused.
   */
  method EncodeScreenEvent(z: Sizes, frame: Frame) returns (r: Encoded)
    requires TextLaw(z)
    ensures r.Sent? ==> Fits(z, r.frame)
    ensures Fits(z, frame) ==> r == Sent(frame)
    ensures var cut := frame.(truncated := true); var bare := cut.(text := []);
      !Fits(z, frame) ==>
        if Fits(z, bare) then exists n: nat :: BestCut(z, cut, n) && r == Sent(cut.(text := frame.text[..n]))
        else if frame.detail != [] && Fits(z, bare.(detail := [])) then
          exists n: nat :: BestDetail(z, bare.(detail := Runes(frame.detail)), n) &&
            r == Sent(bare.(detail := Runes(frame.detail)[..n]))
        else r == TooBig
  {
    if Fits(z, frame) { return Sent(frame); }
    var cut := frame.(truncated := true);
    var n := CutText(z, cut);
    var sent := cut.(text := cut.text[..n]);
    assert cut.text[..0] == [];
    if Fits(z, sent) {
      LaterCutsAreLarger(z, cut, 0, n);
      return Sent(sent);
    }
    assert sent == cut.(text := []);
    if |frame.detail| > 0 {
      var whole := sent.(detail := Runes(frame.detail));
      var k := CutDetail(z, whole);
      var short := whole.(detail := whole.detail[..k]);
      assert whole.detail[..0] == [];
      if Fits(z, short) {
        LongerDetailsAreLarger(z, whole, 0, k);
        return Sent(short);
      }
      return TooBig;
    }
    assert frame.detail == [];
    r := TooBig;
  }

  /** Binary search over the cuts; 0 when not even the first fits. */
  method CutText(z: Sizes, f: Frame) returns (n: nat)
    requires TextLaw(z)
    ensures n <= |f.text| && (n == 0 || (IsCut(f.text, n) && Fits(z, f.(text := f.text[..n]))))
    ensures forall m: nat :: IsCut(f.text, m) && Fits(z, f.(text := f.text[..m])) ==> m <= n
  {
    var cuts := LineBoundaries(f.text);
    assert forall i :: 0 <= i < |cuts| ==> cuts[i] in cuts;
    var lo, hi := 0, |cuts|;
    while lo < hi
      invariant 0 <= lo <= hi <= |cuts|
      invariant lo > 0 ==> Fits(z, f.(text := f.text[..cuts[lo - 1]]))
      invariant forall i :: hi <= i < |cuts| ==> !Fits(z, f.(text := f.text[..cuts[i]]))
    {
      var mid := (lo + hi + 1) / 2;
      if Fits(z, f.(text := f.text[..cuts[mid - 1]])) {
        lo := mid;
      } else {
        forall i | mid - 1 <= i < |cuts| ensures !Fits(z, f.(text := f.text[..cuts[i]])) {
          LaterCutsAreLarger(z, f, cuts[mid - 1], cuts[i]);
        }
        hi := mid - 1;
      }
    }
    n := if lo > 0 then cuts[lo - 1] else 0;
    forall m: nat | IsCut(f.text, m) && Fits(z, f.(text := f.text[..m])) ensures m <= n {
      assert m in cuts;
      var i :| 0 <= i < |cuts| && cuts[i] == m;
    }
  }

  /** Binary search over the detail's runes. */
  method CutDetail(z: Sizes, f: Frame) returns (n: nat)
    ensures n <= |f.detail| && (n == 0 || Fits(z, f.(detail := f.detail[..n])))
    ensures forall m: nat :: m <= |f.detail| && Fits(z, f.(detail := f.detail[..m])) ==> m <= n
  {
    var lo, hi := 0, |f.detail|;
    while lo < hi
      invariant 0 <= lo <= hi <= |f.detail|
      invariant lo > 0 ==> Fits(z, f.(detail := f.detail[..lo]))
      invariant forall m :: hi < m <= |f.detail| ==> !Fits(z, f.(detail := f.detail[..m]))
    {
      var mid := (lo + hi + 1) / 2;
      if Fits(z, f.(detail := f.detail[..mid])) {
        lo := mid;
      } else {
        forall m | mid <= m <= |f.detail| ensures !Fits(z, f.(detail := f.detail[..m])) {
          LongerDetailsAreLarger(z, f, mid, m);
        }
        hi := mid - 1;
      }
    }
    n := lo;
  }
}
