/**
 The segment codec of the provider evidence token: unpadded base64url
 (section 5 of RFC 4648) whose decoder accepts canonical text only
 (section 3.5 of RFC 4648).
 */
module EvidenceCodec {
  import opened Wrappers

  type Byte = b: int | 0 <= b < 256
  type Sextet = v: int | 0 <= v < 64

  datatype SegmentError = InvalidEncoding | NonCanonical

  // ----- the alphabet of table 2 of RFC 4648 -----

  function Symbol(v: Sextet): char {
    if v < 26 then 'A' + v as char
    else if v < 52 then 'a' + (v - 26) as char
    else if v < 62 then '0' + (v - 52) as char
    else if v == 62 then '-' else '_'
  }

  function Value(c: char): Option<Sextet> {
    if 'A' <= c <= 'Z' then Some(c as int - 'A' as int)
    else if 'a' <= c <= 'z' then Some(c as int - 'a' as int + 26)
    else if '0' <= c <= '9' then Some(c as int - '0' as int + 52)
    else if c == '-' then Some(62)
    else if c == '_' then Some(63)
    else None
  }

  predicate InAlphabet(s: string) {
    forall i | 0 <= i < |s| :: Value(s[i]).Some?
  }

  function Text(vs: seq<Sextet>): string {
    seq(|vs|, i requires 0 <= i < |vs| => Symbol(vs[i]))
  }

  function Values(s: string): seq<Sextet>
    requires InAlphabet(s)
  {
    seq(|s|, i requires 0 <= i < |s| => Value(s[i]).value)
  }

  lemma SymbolDecodes(v: Sextet)
    ensures Value(Symbol(v)) == Some(v)
  {
  }

  lemma ValueEncodes(c: char)
    ensures Value(c).Some? ==> Symbol(Value(c).value) == c
  {
  }

  lemma TextAndValuesInvert(vs: seq<Sextet>, s: string)
    ensures InAlphabet(Text(vs)) && Values(Text(vs)) == vs
    ensures InAlphabet(s) ==> Text(Values(s)) == s
  {
    forall i | 0 <= i < |vs| ensures Value(Text(vs)[i]) == Some(vs[i]) {
      SymbolDecodes(vs[i]);
    }
    if InAlphabet(s) {
      forall i | 0 <= i < |s| ensures Text(Values(s))[i] == s[i] {
        ValueEncodes(s[i]);
      }
    }
  }

  // ----- eight-bit groups to six-bit groups and back -----

  // The six-bit groups of three bytes, the last group of a one- or two-byte tail, and the way back.
  function A(b0: Byte): Sextet { b0 / 4 }
  function B(b0: Byte, b1: Byte): Sextet { b0 % 4 * 16 + b1 / 16 }
  function C(b1: Byte, b2: Byte): Sextet { b1 % 16 * 4 + b2 / 64 }
  function LastB(b0: Byte): Sextet { b0 % 4 * 16 }
  function LastC(b1: Byte): Sextet { b1 % 16 * 4 }
  function D(b2: Byte): Sextet { b2 % 64 }

  function First(v0: Sextet, v1: Sextet): Byte { v0 * 4 + v1 / 16 }
  function Second(v1: Sextet, v2: Sextet): Byte { v1 % 16 * 16 + v2 / 4 }
  function Third(v2: Sextet, v3: Sextet): Byte { v2 % 4 * 64 + v3 }

  /** Three bytes become four sextets; a tail of one or two becomes two or three. */
  function Pack(b: seq<Byte>): seq<Sextet> {
    if |b| == 0 then []
    else if |b| == 1 then [A(b[0]), LastB(b[0])]
    else if |b| == 2 then [A(b[0]), B(b[0], b[1]), LastC(b[1])]
    else [A(b[0]), B(b[0], b[1]), C(b[1], b[2]), D(b[2])] + Pack(b[3..])
  }

  /** A single left-over sextet is an error, and left-over low bits are dropped. */
  function Unpack(v: seq<Sextet>): Option<seq<Byte>> {
    if |v| == 0 then Some([])
    else if |v| == 1 then None
    else if |v| == 2 then Some([First(v[0], v[1])])
    else if |v| == 3 then Some([First(v[0], v[1]), Second(v[1], v[2])])
    else
      match Unpack(v[4..])
      case None => None
      case Some(rest) => Some([First(v[0], v[1]), Second(v[1], v[2]), Third(v[2], v[3])] + rest)
  }

  /** No group of one sextet is left, and no unused bit of the last group is set. */
  predicate TailIsClean(v: seq<Sextet>) {
    if |v| >= 4 then TailIsClean(v[4..])
    else |v| == 0 || (|v| == 2 && v[1] % 16 == 0) || (|v| == 3 && v[2] % 4 == 0)
  }

  lemma GroupUnpacks(b0: Byte, b1: Byte, b2: Byte)
    ensures First(A(b0), B(b0, b1)) == b0
    ensures Second(B(b0, b1), C(b1, b2)) == b1
    ensures Third(C(b1, b2), D(b2)) == b2
    ensures First(A(b0), LastB(b0)) == b0
    ensures Second(B(b0, b1), LastC(b1)) == b1
  {
  }

  lemma GroupRepacks(v0: Sextet, v1: Sextet, v2: Sextet, v3: Sextet)
    ensures A(First(v0, v1)) == v0
    ensures B(First(v0, v1), Second(v1, v2)) == v1
    ensures C(Second(v1, v2), Third(v2, v3)) == v2
    ensures D(Third(v2, v3)) == v3
    ensures v1 % 16 == 0 ==> LastB(First(v0, v1)) == v1
    ensures v2 % 4 == 0 ==> LastC(Second(v1, v2)) == v2
  {
  }

  lemma PairUnpacks(b0: Byte)
    ensures Unpack([A(b0), LastB(b0)]) == Some([b0])
  {
    GroupUnpacks(b0, b0, b0);
  }

  lemma TripleUnpacks(b0: Byte, b1: Byte)
    ensures Unpack([A(b0), B(b0, b1), LastC(b1)]) == Some([b0, b1])
  {
    GroupUnpacks(b0, b1, b1);
  }

  lemma QuadUnpacks(b0: Byte, b1: Byte, b2: Byte, v: seq<Sextet>, rest: seq<Byte>)
    requires Unpack(v) == Some(rest)
    ensures Unpack([A(b0), B(b0, b1), C(b1, b2), D(b2)] + v) == Some([b0, b1, b2] + rest)
  {
    assert ([A(b0), B(b0, b1), C(b1, b2), D(b2)] + v)[4..] == v;
    GroupUnpacks(b0, b1, b2);
  }

  lemma {:induction false} PackUnpacks(b: seq<Byte>)
    ensures Unpack(Pack(b)) == Some(b)
  {
    if |b| == 1 {
      PairUnpacks(b[0]);
      assert b == [b[0]];
    } else if |b| == 2 {
      TripleUnpacks(b[0], b[1]);
      assert b == [b[0], b[1]];
    } else if |b| >= 3 {
      PackUnpacks(b[3..]);
      QuadUnpacks(b[0], b[1], b[2], Pack(b[3..]), b[3..]);
      assert b == [b[0], b[1], b[2]] + b[3..];
    }
  }

  lemma {:induction false} PackedTailIsClean(b: seq<Byte>)
    ensures TailIsClean(Pack(b))
  {
    if |b| >= 3 {
      PackedTailIsClean(b[3..]);
      assert Pack(b)[4..] == Pack(b[3..]);
    }
  }

  lemma PairRepacks(v: seq<Sextet>)
    requires |v| == 2 && v[1] % 16 == 0
    ensures Pack([First(v[0], v[1])]) == v
  {
    GroupRepacks(v[0], v[1], v[1], v[1]);
  }

  lemma TripleRepacks(v: seq<Sextet>)
    requires |v| == 3 && v[2] % 4 == 0
    ensures Pack([First(v[0], v[1]), Second(v[1], v[2])]) == v
  {
    GroupRepacks(v[0], v[1], v[2], v[2]);
  }

  lemma QuadRepacks(v: seq<Sextet>, rest: seq<Byte>)
    requires |v| >= 4 && Pack(rest) == v[4..]
    ensures Pack([First(v[0], v[1]), Second(v[1], v[2]), Third(v[2], v[3])] + rest) == v
  {
    var b: seq<Byte> := [First(v[0], v[1]), Second(v[1], v[2]), Third(v[2], v[3])] + rest;
    assert b[3..] == rest;
    GroupRepacks(v[0], v[1], v[2], v[3]);
    assert v == [v[0], v[1], v[2], v[3]] + v[4..];
  }

  lemma {:induction false} CleanTailRepacks(v: seq<Sextet>)
    requires TailIsClean(v)
    ensures Unpack(v).Some? && Pack(Unpack(v).value) == v
  {
    if |v| == 2 {
      PairRepacks(v);
    } else if |v| == 3 {
      TripleRepacks(v);
    } else if |v| >= 4 {
      CleanTailRepacks(v[4..]);
      QuadRepacks(v, Unpack(v[4..]).value);
    }
  }

  // ----- the segment functions -----

  function EncodeSegment(b: seq<Byte>): string {
    Text(Pack(b))
  }

  /** The library decoder run on text that was padded to a multiple of four. */
  function LibraryDecode(s: string): Option<seq<Byte>>
    requires InAlphabet(s)
  {
    Unpack(Values(s))
  }

  function DecodeSegment(s: string): Result<seq<Byte>, SegmentError> {
    if s == "" || !InAlphabet(s) then Failure(InvalidEncoding)
    else
      match LibraryDecode(s)
      case None => Failure(InvalidEncoding)
      case Some(b) => if EncodeSegment(b) != s then Failure(NonCanonical) else Success(b)
  }

  // ----- what the codec is for -----

  lemma DropFour(n: nat)
    requires n >= 4
    ensures (n - 4) % 4 == n % 4
  {
  }

  /** The clean-tail test in closed form: only the length and the last sextet matter. */
  lemma {:induction false} CleanTailClosedForm(v: seq<Sextet>)
    ensures TailIsClean(v) <==>
      && |v| % 4 != 1
      && (|v| % 4 == 2 ==> v[|v| - 1] % 16 == 0)
      && (|v| % 4 == 3 ==> v[|v| - 1] % 4 == 0)
  {
    if |v| >= 4 {
      var rest := v[4..];
      CleanTailClosedForm(rest);
      DropFour(|v|);
      assert |rest| > 0 ==> rest[|rest| - 1] == v[|v| - 1];
    }
  }

  /** Canonical text, said without an encoder. */
  predicate Canonical(s: string) {
    s != "" && InAlphabet(s) && TailIsClean(Values(s))
  }

  /** Every byte string survives the trip, and only the empty one is refused. */
  lemma RoundTrip(b: seq<Byte>)
    ensures DecodeSegment(EncodeSegment(b)) == if b == [] then Failure(InvalidEncoding) else Success(b)
    ensures b != [] ==> Canonical(EncodeSegment(b))
  {
    PackUnpacks(b);
    PackedTailIsClean(b);
    TextAndValuesInvert(Pack(b), "");
  }

  /** The decoder accepts exactly the canonical texts: a non-zero unused bit is refused. */
  lemma AcceptsExactlyCanonical(s: string)
    ensures DecodeSegment(s).Success? <==> Canonical(s)
    ensures DecodeSegment(s).Success? ==> DecodeSegment(s).value != []
  {
    TextAndValuesInvert([], s);
    if Canonical(s) {
      CleanTailRepacks(Values(s));
    }
    if DecodeSegment(s).Success? {
      RoundTrip(DecodeSegment(s).value);
    }
  }

  /** Two accepted texts of the same bytes are the same text. */
  lemma AcceptedTextIsUnique(s: string, t: string)
    ensures DecodeSegment(s).Success? && DecodeSegment(t) == DecodeSegment(s) ==> s == t
  {
    if DecodeSegment(s).Success? {
      RoundTrip(DecodeSegment(s).value);
    }
  }

  /** Without the re-encoding test one byte string would have several accepted spellings. */
  lemma LibraryAloneIsNotInjective()
    ensures InAlphabet("QQ") && InAlphabet("QR")
    ensures LibraryDecode("QQ") == LibraryDecode("QR") == Some([65])
    ensures DecodeSegment("QQ") == Success([65]) && DecodeSegment("QR") == Failure(NonCanonical)
  {
    assert Values("QQ") == [16, 16] && Values("QR") == [16, 17];
    assert Pack([65]) == [16, 16];
    assert EncodeSegment([65]) == "QQ";
    assert "QR"[1] != "QQ"[1];
  }
}
