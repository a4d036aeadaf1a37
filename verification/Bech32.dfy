/** Bech32 and Bech32m strings. */
module Bech32 {
  import opened BitOps
  import opened PolyMod

  datatype Encoding = INVALID | BECH32 | BECH32M

  datatype DecodeResult = Rejected | Decoded(encoding: Encoding, hrp: string, data: seq<nat>)

  const BECH32_CONST := 1
  const BECH32M_CONST := 0x2bc830a3

  // ---------- characters ----------

  /** The value of a character of the data part, or -1; upper and lower case count the same. */
  function CharsetRev(c: char): (d: int)
    ensures -1 <= d < 32
  {
    match c
    case '0' => 15 case '2' => 10 case '3' => 17 case '4' => 21 case '5' => 20 case '6' => 26 case '7' => 30
    case '8' => 7 case '9' => 5
    case 'a' => 29 case 'c' => 24 case 'd' => 13 case 'e' => 25 case 'f' => 9 case 'g' => 8 case 'h' => 23
    case 'j' => 18 case 'k' => 22 case 'l' => 31 case 'm' => 27 case 'n' => 19 case 'p' => 1 case 'q' => 0
    case 'r' => 3 case 's' => 16 case 't' => 11 case 'u' => 28 case 'v' => 12 case 'w' => 14 case 'x' => 6
    case 'y' => 4 case 'z' => 2
    case 'A' => 29 case 'C' => 24 case 'D' => 13 case 'E' => 25 case 'F' => 9 case 'G' => 8 case 'H' => 23
    case 'J' => 18 case 'K' => 22 case 'L' => 31 case 'M' => 27 case 'N' => 19 case 'P' => 1 case 'Q' => 0
    case 'R' => 3 case 'S' => 16 case 'T' => 11 case 'U' => 28 case 'V' => 12 case 'W' => 14 case 'X' => 6
    case 'Y' => 4 case 'Z' => 2
    case _ => -1
  }

  function Charset(d: nat): (c: char)
    requires d < 32
    ensures CharsetRev(c) == d && c != '1' && Plain(c)
  {
    match d
    case 0 => 'q' case 1 => 'p' case 2 => 'z' case 3 => 'r' case 4 => 'y' case 5 => '9' case 6 => 'x' case 7 => '8'
    case 8 => 'g' case 9 => 'f' case 10 => '2' case 11 => 't' case 12 => 'v' case 13 => 'd' case 14 => 'w'
    case 15 => '0' case 16 => 's' case 17 => '3' case 18 => 'j' case 19 => 'n' case 20 => '5' case 21 => '4'
    case 22 => 'k' case 23 => 'h' case 24 => 'c' case 25 => 'e' case 26 => '6' case 27 => 'm' case 28 => 'u'
    case 29 => 'a' case 30 => '7' case _ => 'l'
  }

  function LowerCase(c: char): char {
    if 'A' <= c <= 'Z' then (c as int + 32) as char else c
  }

  predicate IsLower(c: char) { 'a' <= c <= 'z' }

  predicate IsUpper(c: char) { 'A' <= c <= 'Z' }

  predicate Printable(c: char) { 33 as char <= c <= 126 as char }

  /** A printable character that is not upper case. */
  predicate Plain(c: char) { Printable(c) && !IsUpper(c) }

  lemma CharsetInverse(c: char)
    requires CharsetRev(c) >= 0
    ensures Charset(CharsetRev(c)) == LowerCase(c)
  {
  }

  // ---------- what the codec computes ----------

  /** The characters of the human-readable part are bytes. */
  predicate AreBytes(s: string) { forall i :: 0 <= i < |s| ==> s[i] < 256 as char }

  function ExpandHRP(hrp: string): (r: seq<nat>)
    requires AreBytes(hrp)
    ensures |r| == 2 * |hrp| + 1 && Symbols(r)
  {
    seq(2 * |hrp| + 1, i requires 0 <= i <= 2 * |hrp| =>
      if i < |hrp| then hrp[i] as int / 32 else if i == |hrp| then 0 else hrp[i - |hrp| - 1] as int % 32)
  }

  function ConstFor(encoding: Encoding): nat { if encoding == BECH32M then BECH32M_CONST else BECH32_CONST }

  function Text(data: seq<nat>): (s: string)
    requires Symbols(data)
    ensures |s| == |data| && forall i :: 0 <= i < |s| ==> s[i] == Charset(data[i])
  {
    seq(|data|, i requires 0 <= i < |data| => Charset(data[i]))
  }

  function ChecksumFor(encoding: Encoding, hrp: string, data: seq<nat>): (r: seq<nat>)
    requires AreBytes(hrp)
    ensures |r| == CHECKSUM_SIZE && Symbols(r)
  {
    Checksum(ExpandHRP(hrp) + data, ConstFor(encoding))
  }

  function Encode(encoding: Encoding, hrp: string, data: seq<nat>): string
    requires AreBytes(hrp) && Symbols(data)
  {
    hrp + "1" + Text(data + ChecksumFor(encoding, hrp, data))
  }

  function EncodingOf(check: nat): Encoding {
    if check == BECH32_CONST then BECH32 else if check == BECH32M_CONST then BECH32M else INVALID
  }

  function VerifyChecksum(hrp: string, values: seq<nat>): Encoding
    requires AreBytes(hrp)
  {
    EncodingOf(PolyFrom(1, ExpandHRP(hrp) + values))
  }

  /** Printable characters of one case. */
  predicate CharactersOk(s: string) {
    && (forall i :: 0 <= i < |s| ==> Printable(s[i]))
    && ((forall i :: 0 <= i < |s| ==> !IsLower(s[i])) || (forall i :: 0 <= i < |s| ==> !IsUpper(s[i])))
  }

  /** The position of the last separator, or -1. */
  function LastOne(s: string): (p: int)
    ensures -1 <= p < |s| && (p >= 0 ==> s[p] == '1') && (forall i :: p < i < |s| ==> s[i] != '1')
  {
    if s == [] then -1 else if s[|s| - 1] == '1' then |s| - 1 else LastOne(s[..|s| - 1])
  }

  predicate AllValues(s: string) { forall i :: 0 <= i < |s| ==> CharsetRev(s[i]) >= 0 }

  function Values(s: string): (r: seq<nat>)
    requires AllValues(s)
    ensures |r| == |s| && Symbols(r) && forall i :: 0 <= i < |s| ==> r[i] == CharsetRev(s[i])
  {
    seq(|s|, i requires 0 <= i < |s| => CharsetRev(s[i]))
  }

  function Lower(s: string): (r: string)
    ensures |r| == |s| && forall i :: 0 <= i < |s| ==> r[i] == LowerCase(s[i])
  {
    seq(|s|, i requires 0 <= i < |s| => LowerCase(s[i]))
  }

  /** Decodes a string with its parts before and after the last separator. */
  function DecodeParts(s: string, h: string, w: string): DecodeResult {
    if !CharactersOk(s) || |s| > 90 || h == [] || |w| < CHECKSUM_SIZE || !AllValues(w) || !AreBytes(Lower(h))
    then Rejected
    else
      var values := Values(w);
      var encoding := VerifyChecksum(Lower(h), values);
      if encoding == INVALID then Rejected else Decoded(encoding, Lower(h), values[..|values| - CHECKSUM_SIZE])
  }

  function Decode(s: string): DecodeResult {
    var pos := LastOne(s);
    if pos < 0 then Rejected else DecodeParts(s, s[..pos], s[pos + 1..])
  }

  // ---------- round trips ----------

  lemma ConstShort(encoding: Encoding)
    ensures Remainder(ConstFor(encoding)) && (encoding != INVALID ==> EncodingOf(ConstFor(encoding)) == encoding)
  {
    Below30(ConstFor(encoding));
  }

  /** The checksum of an encoding verifies as that encoding. */
  lemma ChecksumVerifies(encoding: Encoding, hrp: string, data: seq<nat>)
    requires AreBytes(hrp) && Symbols(data) && encoding != INVALID
    ensures VerifyChecksum(hrp, data + ChecksumFor(encoding, hrp, data)) == encoding
  {
    ConstShort(encoding);
    ChecksumBehind(ExpandHRP(hrp), data, ConstFor(encoding));
  }

  /** Human-readable parts that survive: not empty, printable, not upper case. */
  predicate HrpOk(hrp: string) { hrp != [] && AllPlain(hrp) }

  predicate AllPlain(s: string) { forall i :: 0 <= i < |s| ==> Plain(s[i]) }

  lemma {:induction false} LastSeparator(hrp: string, t: string)
    requires forall i :: 0 <= i < |t| ==> t[i] != '1'
    ensures LastOne(hrp + "1" + t) == |hrp|
  {
    var s := hrp + "1" + t;
    if t != [] {
      assert s[..|s| - 1] == hrp + "1" + t[..|t| - 1];
      LastSeparator(hrp, t[..|t| - 1]);
    }
  }

  lemma ValuesOfText(data: seq<nat>)
    requires Symbols(data)
    ensures AllValues(Text(data)) && Values(Text(data)) == data && AllPlain(Text(data)) && '1' !in Text(data)
  {
  }

  lemma PlainString(h: string, w: string)
    requires AllPlain(h) && AllPlain(w)
    ensures CharactersOk(h + "1" + w) && Lower(h) == h && AreBytes(h)
  {
    var s := h + "1" + w;
    assert AllPlain(s);
  }

  /** Decoding an encoded string gives back what was encoded. */
  lemma DecodeEncode(encoding: Encoding, hrp: string, data: seq<nat>)
    requires HrpOk(hrp) && Symbols(data) && encoding != INVALID && |hrp| + |data| + 7 <= 90
    ensures AreBytes(hrp) && Decode(Encode(encoding, hrp, data)) == Decoded(encoding, hrp, data)
  {
    hide Charset, CharsetRev, Text, ChecksumFor;
    PlainString(hrp, "");
    var all := data + ChecksumFor(encoding, hrp, data);
    var t := Text(all);
    var s := hrp + "1" + t;
    ValuesOfText(all);
    PlainString(hrp, t);
    LastSeparator(hrp, t);
    assert s[|hrp| + 1..] == t && s[..|hrp|] == hrp;
    ChecksumVerifies(encoding, hrp, data);
    assert all[..|all| - CHECKSUM_SIZE] == data;
  }

  lemma TextOfValues(s: string)
    requires AllValues(s)
    ensures Text(Values(s)) == Lower(s)
  {
    forall i | 0 <= i < |s| ensures Text(Values(s))[i] == Lower(s)[i] { CharsetInverse(s[i]); }
  }

  lemma EncodeDecodedParts(s: string, h: string, w: string)
    requires DecodeParts(s, h, w).Decoded?
    ensures var r := DecodeParts(s, h, w);
      AreBytes(r.hrp) && Symbols(r.data) && Encode(r.encoding, r.hrp, r.data) == Lower(h) + "1" + Lower(w)
  {
    hide Charset, CharsetRev, LowerCase, Text, Values, Lower, ExpandHRP, PolyFrom, Checksum, CharactersOk, AreBytes;
    var r, values := DecodeParts(s, h, w), Values(w);
    var c := values[|values| - CHECKSUM_SIZE..];
    assert values == r.data + c;
    ConstShort(r.encoding);
    ChecksumUnique(ExpandHRP(r.hrp), r.data, c, ConstFor(r.encoding));
    TextOfValues(w);
  }

  /** An accepted string, in lower case, is the encoding of what was decoded. */
  lemma EncodeDecode(s: string)
    requires Decode(s).Decoded?
    ensures var r := Decode(s);
      AreBytes(r.hrp) && Symbols(r.data) && Encode(r.encoding, r.hrp, r.data) == Lower(s)
  {
    var pos := LastOne(s);
    LowerParts(s, pos);
    EncodeDecodedParts(s, s[..pos], s[pos + 1..]);
  }

  lemma LowerParts(s: string, pos: nat)
    requires pos < |s| && s[pos] == '1'
    ensures Lower(s) == Lower(s[..pos]) + "1" + Lower(s[pos + 1..])
  {
  }
}
