/** Percent-encoded text in any spelling: what every text decodes to, which bytes the encoder
    escapes (section 2 of RFC 3986), and where `replaceAll` replaces. */
module UrlSpelling {
  import opened Messages
  import opened UrlQuery

  /** A byte that stands for itself, a plus sign, a percent sign with two hexadecimal digits, or a
      percent sign on its own. */
  datatype Piece = Literal(c: ByteChar) | Plus | Percent(hi: ByteChar, lo: ByteChar) | Bare

  /** The value of a hexadecimal digit in either case. */
  function Nibble(c: char): (r: Option<nat>)
    ensures r.Some? ==> r.value < 16
  {
    if '0' <= c <= '9' then Some(c as nat - 48)
    else if 'a' <= c <= 'f' then Some(c as nat - 87)
    else if 'A' <= c <= 'F' then Some(c as nat - 55)
    else None
  }

  function PieceText(p: Piece): Text {
    match p
    case Literal(c) => [c]
    case Plus => ['+']
    case Percent(hi, lo) => ['%', hi, lo]
    case Bare => ['%']
  }

  function PieceMeaning(p: Piece): ByteChar {
    match p
    case Literal(c) => c
    case Plus => ' '
    case Percent(hi, lo) =>
      if Nibble(hi).Some? && Nibble(lo).Some? then (16 * Nibble(hi).value + Nibble(lo).value) as char else '%'
    case Bare => '%'
  }

  function TextOf(ps: seq<Piece>, rest: Text): Text {
    if ps == [] then rest else PieceText(ps[0]) + TextOf(ps[1..], rest)
  }

  function MeaningOf(ps: seq<Piece>): (r: Text)
    ensures |r| == |ps| && forall i :: 0 <= i < |r| ==> r[i] == PieceMeaning(ps[i])
  {
    seq(|ps|, i requires 0 <= i < |ps| => PieceMeaning(ps[i]))
  }

  /** A percent sign stands on its own only before two bytes that are not both digits. */
  predicate ValidPieces(ps: seq<Piece>, rest: Text)
    decreases |ps|
  {
    ps == [] ||
    (var tail := TextOf(ps[1..], rest);
     && ValidPieces(ps[1..], rest)
     && match ps[0]
        case Literal(c) => c != '%' && c != '+'
        case Plus => true
        case Percent(hi, lo) => Nibble(hi).Some? && Nibble(lo).Some?
        case Bare => |tail| >= 2 && (Nibble(tail[0]).None? || Nibble(tail[1]).None?))
  }

  /** The end of a text: nothing, or a percent sign with fewer than two bytes behind it. */
  predicate CutOff(rest: Text) {
    rest != [] && rest[0] == '%' && |rest| < 3
  }

  lemma {:induction false} NibbleIs(c: char)
    ensures IsHex(c) <==> Nibble(c).Some?
    ensures IsHex(c) ==> HexValue(c) == Nibble(c).value
  {
  }

  lemma {:induction false} PieceDecoded(p: Piece, tail: Text)
    requires match p
             case Literal(c) => c != '%' && c != '+'
             case Plus => true
             case Percent(hi, lo) => Nibble(hi).Some? && Nibble(lo).Some?
             case Bare => |tail| >= 2 && (Nibble(tail[0]).None? || Nibble(tail[1]).None?)
    ensures Decode(PieceText(p) + tail) == Prepend(PieceMeaning(p), Decode(tail))
  {
    hide Nibble, IsHex, HexValue, Prepend;
    var s := PieceText(p) + tail;
    match p
    case Percent(hi, lo) =>
      NibbleIs(hi);
      NibbleIs(lo);
      assert s[0] == '%' && s[1] == hi && s[2] == lo && s[3..] == tail;
    case Bare =>
      NibbleIs(tail[0]);
      NibbleIs(tail[1]);
      assert s[0] == '%' && s[1] == tail[0] && s[2] == tail[1] && s[1..] == tail;
    case _ => assert s[1..] == tail;
  }

  /** A text decodes piece by piece, and raises exactly when it ends inside a percent sign. */
  lemma {:induction false} Decoded(ps: seq<Piece>, rest: Text)
    requires ValidPieces(ps, rest) && (rest == [] || CutOff(rest))
    ensures Decode(TextOf(ps, rest)) == if rest == [] then Some(MeaningOf(ps)) else None
    decreases |ps|
  {
    hide Decode, PieceText, PieceMeaning;
    if ps == [] {
      DecodeEnd(rest);
    } else {
      PieceDecoded(ps[0], TextOf(ps[1..], rest));
      Decoded(ps[1..], rest);
      assert [PieceMeaning(ps[0])] + MeaningOf(ps[1..]) == MeaningOf(ps);
    }
  }

  lemma {:induction false} DecodeEnd(rest: Text)
    requires rest == [] || CutOff(rest)
    ensures Decode(rest) == if rest == [] then Some([]) else None
  {
  }

  /** Every text is spelled by pieces, so that the theorem above speaks of every text. */
  lemma {:induction false} EveryText(s: Text) returns (ps: seq<Piece>, rest: Text)
    ensures ValidPieces(ps, rest) && TextOf(ps, rest) == s && (rest == [] || CutOff(rest))
    decreases |s|
  {
    hide Nibble;
    if s == [] || CutOff(s) {
      return [], s;
    }
    var p, n := Literal(s[0]), 1;
    if s[0] == '+' {
      p := Plus;
    } else if s[0] == '%' {
      if Nibble(s[1]).Some? && Nibble(s[2]).Some? {
        p, n := Percent(s[1], s[2]), 3;
      } else {
        p := Bare;
      }
    }
    var more, end := EveryText(s[n..]);
    ps, rest := [p] + more, end;
    assert ps[1..] == more;
    assert PieceText(p) == s[..n] && s[..n] + s[n..] == s;
  }

  // ---------------------------------------------------------------------------
  // The encoder
  // ---------------------------------------------------------------------------

  /** The bytes that are written as they are. */
  predicate Kept(c: ByteChar) {
    'A' <= c <= 'Z' || 'a' <= c <= 'z' || '0' <= c <= '9' || c in {'-', '_', '.', '~'}
  }

  predicate UpperHex(c: ByteChar) {
    '0' <= c <= '9' || 'A' <= c <= 'F'
  }

  /** How the encoder writes one byte: as it is if it is unreserved, or as two upper-case digits. */
  predicate Writes(p: Piece, c: ByteChar) {
    && PieceMeaning(p) == c
    && if Kept(c) then p == Literal(c) else p.Percent? && UpperHex(p.hi) && UpperHex(p.lo)
  }

  lemma {:induction false} CharWritten(c: ByteChar) returns (p: Piece)
    ensures EncodeChar(c) == PieceText(p) && Writes(p, c)
  {
    if Kept(c) {
      p := Literal(c);
    } else {
      p := Percent(HexDigit(c as nat / 16), HexDigit(c as nat % 16));
      UpperDigit(c as nat / 16);
      UpperDigit(c as nat % 16);
    }
  }

  lemma {:induction false} UpperDigit(n: nat)
    requires n < 16
    ensures UpperHex(HexDigit(n)) && Nibble(HexDigit(n)) == Some(n)
  {
  }

  lemma {:induction false} EncodeWrites(s: Text) returns (ps: seq<Piece>)
    ensures |ps| == |s| && Encode(s) == TextOf(ps, []) && forall i :: 0 <= i < |s| ==> Writes(ps[i], s[i])
    decreases |s|
  {
    hide EncodeChar, PieceText, Writes;
    ps := [];
    if s != [] {
      var p := CharWritten(s[0]);
      var more := EncodeWrites(s[1..]);
      ps := [p] + more;
      assert ps[1..] == more;
      forall i | 0 <= i < |s| ensures Writes(ps[i], s[i]) {
        if i > 0 {
          assert s[i] == s[1..][i - 1];
        }
      }
    }
  }

  // ---------------------------------------------------------------------------
  // Replacing
  // ---------------------------------------------------------------------------

  predicate FirstAt(s: Text, pattern: Text, i: nat) {
    i <= |s| && pattern <= s[i..] && forall k :: 0 <= k < i ==> !(pattern <= s[k..])
  }

  predicate Nowhere(s: Text, pattern: Text) {
    forall k :: 0 <= k <= |s| ==> !(pattern <= s[k..])
  }

  lemma {:induction false} FindIs(s: Text, pattern: Text)
    requires pattern != []
    ensures var i := FindText(s, pattern); if i < |s| then FirstAt(s, pattern, i) else Nowhere(s, pattern)
    decreases |s|
  {
    if s != [] && !(pattern <= s) {
      var t := s[1..];
      FindIs(t, pattern);
      assert forall k :: 0 < k <= |s| ==> s[k..] == t[k - 1..];
      assert s[0..] == s;
    } else {
      assert s[0..] == s;
    }
  }

  /** The first occurrence is replaced and the text behind it searched on; a text without any is
      left alone. */
  lemma {:induction false} ReplacedIs(s: Text, pattern: Text, replacement: Text, i: nat)
    requires pattern != []
    ensures FirstAt(s, pattern, i) ==>
      i + |pattern| <= |s| && Replaced(s, pattern, replacement) == s[..i] + replacement + Replaced(s[i + |pattern|..], pattern, replacement)
    ensures Nowhere(s, pattern) ==> Replaced(s, pattern, replacement) == s
  {
    hide Replaced, FindText;
    FindIs(s, pattern);
    var j := FindText(s, pattern);
    ReplacedStep(s, pattern, replacement);
    if FirstAt(s, pattern, i) {
      if j < |s| {
        assert i == j;
        FoundAt(s, pattern);
      } else {
        assert false;
      }
    } else if Nowhere(s, pattern) && j < |s| {
      assert false;
    }
  }
}
