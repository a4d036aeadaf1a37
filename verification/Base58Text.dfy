/** The base 58 encoder and decoder. */
module Base58Text {
  import opened Basics
  import opened Division
  import opened Digits
  import opened Base58

  // ---------- the alphabet ----------

  /** The digit of a character, or -1: all alphanumeric characters except 0, I, O and l. */
  function CharDigit(c: char): (d: int)
    ensures -1 <= d < 58
  {
    var x := c as int;
    if '1' <= c <= '9' then x - 49
    else if 'A' <= c <= 'H' then x - 56
    else if 'J' <= c <= 'N' then x - 57
    else if 'P' <= c <= 'Z' then x - 58
    else if 'a' <= c <= 'k' then x - 64
    else if 'm' <= c <= 'z' then x - 65
    else -1
  }

  function DigitChar(d: nat): (c: char)
    requires d < 58
    ensures CharDigit(c) == d && (c == '1' <==> d == 0)
  {
    (d + if d < 9 then 49 else if d < 17 then 56 else if d < 22 then 57 else if d < 33 then 58 else if d < 44 then 64
         else 65) as char
  }

  lemma DigitInverse(c: char)
    requires CharDigit(c) >= 0
    ensures DigitChar(CharDigit(c)) == c
  {
  }

  predicate IsSpace(c: char) { c == ' ' || '\t' <= c <= '\r' }

  lemma DigitsAreNotSpaces(c: char)
    requires CharDigit(c) >= 0
    ensures !IsSpace(c) && c != '\0'
  {
  }

  // ---------- what the codec computes ----------

  type Bytes = s: seq<nat> | AreDigits(256, s)

  /** The number of leading elements equal to x. */
  function Leading<T(==)>(s: seq<T>, x: T): (n: nat)
    ensures n <= |s| && (forall i :: 0 <= i < n ==> s[i] == x) && (n < |s| ==> s[n] != x)
  {
    if s == [] || s[0] != x then 0 else 1 + Leading(s[1..], x)
  }

  function Text(digits: seq<nat>): (s: string)
    requires AreDigits(58, digits)
    ensures |s| == |digits| && forall i :: 0 <= i < |s| ==> s[i] == DigitChar(digits[i])
  {
    seq(|digits|, i requires 0 <= i < |digits| => DigitChar(digits[i]))
  }

  /** A table that gives each character a digit of base 58 or -1. */
  type DigitMap = char -> int

  predicate AllDigits(m: DigitMap, s: string) { forall i :: 0 <= i < |s| ==> 0 <= m(s[i]) < 58 }

  function DigitsOf(m: DigitMap, s: string): (d: seq<nat>)
    requires AllDigits(m, s)
    ensures |d| == |s| && AreDigits(58, d) && forall i :: 0 <= i < |s| ==> d[i] == m(s[i])
  {
    seq(|s|, i requires 0 <= i < |s| => m(s[i]))
  }

  function Ones(z: nat): (s: string)
    ensures |s| == z && forall i :: 0 <= i < z ==> s[i] == '1'
  {
    seq(z, _ => '1')
  }

  /** A one per leading zero byte, then the number in base 58. */
  function Encoded(v: Bytes): string {
    Ones(Leading(v, 0)) + Text(ReversedDigits(58, BigEndian(256, v)))
  }

  function ReversedDigits(b: nat, n: nat): (s: seq<nat>)
    requires b > 1
    ensures AreDigits(b, s) && (s != [] ==> s[0] != 0)
  {
    Reverse(ToDigits(b, n))
  }

  /** A zero byte per leading one, then the number in base 256. */
  function DecodedDigits(s: string): (v: Bytes)
    requires AllDigits(CharDigit, s)
  {
    Zeros(Leading(s, '1')) + ReversedDigits(256, BigEndian(58, DigitsOf(CharDigit, s)))
  }

  function SkipSpaces(s: string): (r: string)
    ensures |r| <= |s| && r == s[|s| - |r|..] && (r != [] ==> !IsSpace(r[0]))
  {
    if s != [] && IsSpace(s[0]) then SkipSpaces(s[1..]) else s
  }

  /** The part before the first space. */
  function Word(s: string): (r: string)
    ensures r <= s && (forall i :: 0 <= i < |r| ==> !IsSpace(r[i])) && (|r| < |s| ==> IsSpace(s[|r|]))
  {
    if s == [] || IsSpace(s[0]) then [] else [s[0]] + Word(s[1..])
  }

  /** Decodes one word of digits with spaces around it. */
  function Decoded(s: string): Option<Bytes> {
    var t := SkipSpaces(s);
    if OneWord(t) then Some(DecodedDigits(Word(t))) else None
  }

  /** A word of digits with nothing but spaces after it. */
  predicate OneWord(t: string) { AllDigits(CharDigit, Word(t)) && SkipSpaces(t[|Word(t)|..]) == [] }

  /** A C string ends at the first null character. */
  function CString(s: string): (r: string)
    ensures r <= s && '\0' !in r
  {
    if s == [] || s[0] == '\0' then [] else [s[0]] + CString(s[1..])
  }

  // ---------- round trips ----------

  lemma {:induction false} WordOfDigits(s: string)
    requires AllDigits(CharDigit, s)
    ensures Word(s) == s && SkipSpaces(s) == s && CString(s) == s
  {
    if s != [] {
      DigitsAreNotSpaces(s[0]);
      WordOfDigits(s[1..]);
    }
  }

  lemma {:induction false} LeadingOf<T>(s: seq<T>, t: seq<T>, x: T)
    requires (forall i :: 0 <= i < |s| ==> s[i] == x) && (t != [] ==> t[0] != x)
    ensures Leading(s + t, x) == |s|
  {
    if s != [] {
      assert (s + t)[1..] == s[1..] + t;
      LeadingOf(s[1..], t, x);
    } else {
      assert s + t == t;
    }
  }

  /** A digit sequence is its leading zeros and the digits of its number. */
  lemma Normal(b: nat, v: seq<nat>)
    requires b > 1 && AreDigits(b, v)
    ensures v == Zeros(Leading(v, 0)) + ReversedDigits(b, BigEndian(b, v))
  {
    var z := Leading(v, 0);
    var w := v[z..];
    assert v == Zeros(z) + w;
    BigEndianZeros(b, z, w);
    var r := Reverse(w);
    ReverseTwice(w);
    BigEndianReversed(b, r);
    ValueDigits(b, r);
  }

  lemma NumberOfDigits(b: nat, n: nat)
    requires b > 1
    ensures BigEndian(b, ReversedDigits(b, n)) == n
  {
    BigEndianReversed(b, ToDigits(b, n));
    DigitsValue(b, n);
  }

  lemma EncodedParts(v: Bytes)
    ensures AllDigits(CharDigit, Encoded(v)) && Leading(Encoded(v), '1') == Leading(v, 0)
    ensures DigitsOf(CharDigit, Encoded(v)) == Zeros(Leading(v, 0)) + ReversedDigits(58, BigEndian(256, v))
  {
    hide BigEndian;
    var d := ReversedDigits(58, BigEndian(256, v));
    LeadingOf(Ones(Leading(v, 0)), Text(d), '1');
  }

  /** Decoding an encoded byte string gives it back. */
  lemma DecodeEncode(v: Bytes)
    ensures Decoded(CString(Encoded(v))) == Some(v)
  {
    hide ReversedDigits, BigEndian;
    var s := Encoded(v);
    EncodedParts(v);
    WordOfDigits(s);
    BigEndianZeros(58, Leading(v, 0), ReversedDigits(58, BigEndian(256, v)));
    NumberOfDigits(58, BigEndian(256, v));
    Normal(256, v);
  }

  lemma TextOfDigits(s: string)
    requires AllDigits(CharDigit, s)
    ensures Text(DigitsOf(CharDigit, s)) == s
  {
    forall i | 0 <= i < |s| ensures Text(DigitsOf(CharDigit, s))[i] == s[i] { DigitInverse(s[i]); }
  }

  lemma DecodedParts(s: string)
    requires AllDigits(CharDigit, s)
    ensures Leading(DecodedDigits(s), 0) == Leading(s, '1')
    ensures BigEndian(256, DecodedDigits(s)) == BigEndian(58, DigitsOf(CharDigit, s))
  {
    var n, z := BigEndian(58, DigitsOf(CharDigit, s)), Leading(s, '1');
    var w := ReversedDigits(256, n);
    LeadingOf(Zeros(z), w, 0);
    BigEndianZeros(256, z, w);
    NumberOfDigits(256, n);
  }

  lemma TextConcat(z: nat, d: seq<nat>)
    requires AreDigits(58, d)
    ensures Text(Zeros(z) + d) == Ones(z) + Text(d)
  {
  }

  /** Encoding what was decoded from text without spaces gives the text back. */
  lemma EncodeDecode(s: string)
    requires AllDigits(CharDigit, s)
    ensures Decoded(s) == Some(DecodedDigits(s)) && Encoded(DecodedDigits(s)) == s
  {
    WordOfDigits(s);
    DecodedParts(s);
    LeadingDigits(s);
    Normal(58, DigitsOf(CharDigit, s));
    TextConcat(Leading(s, '1'), ReversedDigits(58, BigEndian(58, DigitsOf(CharDigit, s))));
    TextOfDigits(s);
  }

  lemma {:induction false} LeadingDigits(s: string)
    requires AllDigits(CharDigit, s)
    ensures Leading(DigitsOf(CharDigit, s), 0) == Leading(s, '1')
  {
    if s != [] {
      assert DigitsOf(CharDigit, s)[1..] == DigitsOf(CharDigit, s[1..]);
      DigitInverse(s[0]);
      LeadingDigits(s[1..]);
    }
  }

  /** Spaces around a word of digits make no difference. */
  lemma AcceptedText(s: string, before: string, w: string, after: string)
    requires s == before + w + after && AllDigits(CharDigit, w)
    requires AllSpaces(before) && AllSpaces(after)
    requires w != [] || after == []
    ensures Decoded(s) == Some(DecodedDigits(w))
  {
    var t := w + after;
    assert s == before + t;
    WordBefore(w, after);
    SpacesSkipped(before, t);
    SpacesSkipped(after, []);
    assert after + [] == after && t[|w|..] == after;
  }

  lemma {:induction false} SpacesSkipped(before: string, t: string)
    requires (forall i :: 0 <= i < |before| ==> IsSpace(before[i])) && (t != [] ==> !IsSpace(t[0]))
    ensures SkipSpaces(before + t) == t
  {
    if before == [] {
      assert before + t == t;
    } else {
      assert (before + t)[1..] == before[1..] + t;
      SpacesSkipped(before[1..], t);
    }
  }

  lemma {:induction false} WordBefore(w: string, after: string)
    requires AllDigits(CharDigit, w) && (after != [] ==> IsSpace(after[0]))
    ensures Word(w + after) == w && (w != [] ==> !IsSpace(w[0]))
  {
    if w == [] {
      assert w + after == after;
    } else {
      DigitsAreNotSpaces(w[0]);
      assert (w + after)[1..] == w[1..] + after;
      WordBefore(w[1..], after);
    }
  }

  predicate AllSpaces(s: string) { forall i :: 0 <= i < |s| ==> IsSpace(s[i]) }

  lemma {:induction false} SkippedAreSpaces(s: string)
    ensures AllSpaces(s[..|s| - |SkipSpaces(s)|])
  {
    if s != [] && IsSpace(s[0]) {
      var n := |s| - |SkipSpaces(s)|;
      SkippedAreSpaces(s[1..]);
      assert s[..n] == [s[0]] + s[1..][..n - 1];
    }
  }

  lemma SkipParts(s: string) returns (before: string)
    ensures s == before + SkipSpaces(s) && AllSpaces(before)
  {
    hide SkipSpaces, AllSpaces;
    SkippedAreSpaces(s);
    before := s[..|s| - |SkipSpaces(s)|];
  }

  lemma {:induction false} WordParts(t: string) returns (after: string)
    requires OneWord(t)
    ensures t == Word(t) + after && AllSpaces(after) && AllDigits(CharDigit, Word(t))
  {
    after := t[|Word(t)|..];
    var rest := SkipParts(after);
    assert rest + [] == rest;
  }

  /** Nothing else is accepted: an accepted string is a word of digits with spaces around it. */
  lemma AcceptedParts(s: string) returns (before: string, w: string, after: string)
    requires Decoded(s).Some?
    ensures s == before + w + after && AllSpaces(before) && AllSpaces(after)
    ensures AllDigits(CharDigit, w) && Decoded(s) == Some(DecodedDigits(w))
  {
    hide DecodedDigits, AllDigits, AllSpaces, Word, SkipSpaces, OneWord;
    before := SkipParts(s);
    var t := SkipSpaces(s);
    w := Word(t);
    after := WordParts(t);
    assert before + (w + after) == before + w + after;
  }

  /** For every accepted string without spaces at its ends, encoding what was decoded gives the string back. */
  lemma EncodeAccepted(s: string)
    requires Decoded(s).Some? && (s != [] ==> !IsSpace(s[0]) && !IsSpace(s[|s| - 1]))
    ensures Encoded(Decoded(s).value) == s
  {
    hide Decoded, DecodedDigits, Encoded;
    var before, w, after := AcceptedParts(s);
    assert s == w;
    EncodeDecode(w);
  }

  // ---------- the codec ----------

  /** One more digit of a product, from the end: the low part stays and the rest is carried. */
  lemma CarryStep(b: nat, f: nat, c: nat, was: seq<nat>, now: seq<nat>, carry: nat, x: nat, sum: nat)
    requires b > 0 && |was| == |now| && sum == carry + f * x
    requires BigEndian(b, now) + Pow(b, |now|) * carry == f * BigEndian(b, was) + c
    ensures BigEndian(b, [sum % b] + now) + Pow(b, |now| + 1) * (sum / b) == f * BigEndian(b, [x] + was) + c
  {
    var p := Pow(b, |now|);
    BigEndianPrepend(b, sum % b, now);
    BigEndianPrepend(b, x, was);
    DivMod(sum, b);
    var q, r := sum / b, sum % b;
    calc {
      p * r + (b * p) * q;
      { Associate(p, b, q); Distribute(p, r, b * q); }
      p * sum;
      { Distribute(p, carry, f * x); Associate(p, f, x); Associate(f, p, x); }
      p * carry + f * (p * x);
    }
    Distribute(f, p * x, BigEndian(b, was));
  }

  /** Only the last `length` digits of a buffer may be in use; the others are zero. */
  predicate InUse(buf: seq<nat>, length: nat) {
    length <= |buf| && forall i :: 0 <= i < |buf| - length ==> buf[i] == 0
  }

  lemma HighZeros(b: nat, s: seq<nat>, i: nat)
    requires i <= |s| && forall j :: 0 <= j < i ==> s[j] == 0
    ensures BigEndian(b, s) == BigEndian(b, s[i..])
  {
    assert s == Zeros(i) + s[i..];
    BigEndianZeros(b, i, s[i..]);
  }

  /** Multiplies and adds from the last digit on, until nothing is carried and all digits in use are done. */
  lemma NothingCarried(b: nat, f: nat, c: nat)
    ensures BigEndian(b, []) + Pow(b, 0) * c == f * BigEndian(b, []) + c
  {
  }

  method Propagate(buf: array<nat>, b: nat, f: nat, c: nat, length: nat) returns (i: nat, carry: nat)
    requires b > 1 && AreDigits(b, buf[..]) && length <= buf.Length
    modifies buf
    ensures i <= buf.Length && AreDigits(b, buf[..]) && buf[..buf.Length - i] == old(buf[..buf.Length - i])
    ensures i == buf.Length || (carry == 0 && i >= length)
    ensures BigEndian(b, buf[buf.Length - i..]) + Pow(b, i) * carry == f * old(BigEndian(b, buf[buf.Length - i..])) + c
  {
    hide Pow, BigEndian;
    var n := buf.Length;
    ghost var was := buf[..];
    NothingCarried(b, f, c);
    assert buf[n..] == was[n..] == [];
    i, carry := 0, c;
    while (carry != 0 || i < length) && i < n
      invariant 0 <= i <= n && AreDigits(b, buf[..]) && buf[..n - i] == was[..n - i]
      invariant BigEndian(b, buf[n - i..]) + Pow(b, i) * carry == f * BigEndian(b, was[n - i..]) + c
    {
      var k := n - 1 - i;
      var x := buf[k];
      assert x == was[k];
      var sum := carry + f * x;
      MulPositive(f, x);
      ghost var done := buf[n - i..];
      CarryStep(b, f, c, was[n - i..], done, carry, x, sum);
      DivMod(sum, b);
      buf[k] := sum % b;
      carry := sum / b;
      assert was[k..] == [x] + was[n - i..] && buf[k..] == [sum % b] + done;
      i := i + 1;
    }
  }

  lemma CarryZero(v: nat, p: nat, carry: nat, total: nat)
    requires v + p * carry == total < p
    ensures carry == 0 && v == total
  {
    if carry > 0 { MulMonotone(1, carry, p); }
  }

  /** Digits in front of those that were changed do not count when they are zero. */
  lemma SuffixNumber(b: nat, s: seq<nat>, length: nat, i: nat)
    requires InUse(s, length) && length <= i <= |s|
    ensures BigEndian(b, s) == BigEndian(b, s[|s| - i..]) && InUse(s, i)
  {
    HighZeros(b, s, |s| - i);
  }

  lemma SamePrefix(was: seq<nat>, now: seq<nat>, length: nat, i: nat)
    requires |was| == |now| && InUse(was, length) && length <= i <= |was| && now[..|now| - i] == was[..|now| - i]
    ensures InUse(now, i)
  {
    forall j | 0 <= j < |now| - i ensures now[j] == 0 { assert now[j] == now[..|now| - i][j] == was[j]; }
  }

  /** Multiplies the number in a big-endian buffer and adds to it, in place. */
  method MulAdd(buf: array<nat>, b: nat, f: nat, c: nat, length: nat) returns (i: nat)
    requires b > 1 && AreDigits(b, buf[..]) && InUse(buf[..], length)
    requires f * BigEndian(b, buf[..]) + c < Pow(b, buf.Length)
    modifies buf
    ensures AreDigits(b, buf[..]) && InUse(buf[..], i)
    ensures BigEndian(b, buf[..]) == f * old(BigEndian(b, buf[..])) + c
  {
    hide Pow, BigEndian;
    ghost var was := buf[..];
    var carry;
    i, carry := Propagate(buf, b, f, c, length);
    ghost var now, k := buf[..], buf.Length - i;
    assert was[k..] == old(buf[k..]) && buf[k..] == now[k..];
    if i == buf.Length {
      assert now[0..] == now && was[0..] == was;
      CarryZero(BigEndian(b, now), Pow(b, i), carry, f * BigEndian(b, was) + c);
    } else {
      SamePrefix(was, now, length, i);
      SuffixNumber(b, now, i, i);
      SuffixNumber(b, was, length, i);
      assert Pow(b, i) * carry == 0;
    }
    assert carry == 0;
  }

  /** The number of the first digits of a string with leading zeros, within the room for the rest. */
  lemma PrefixFits(b: nat, v: seq<nat>, z: nat, k: nat, room: nat)
    requires b > 0 && AreDigits(b, v) && z <= k <= |v| && (forall i :: 0 <= i < z ==> v[i] == 0)
    requires Pow(b, |v| - z) <= room
    ensures BigEndian(b, v[..k]) < room
  {
    HighZeros(b, v[..k], z);
    BigEndianBelow(b, v[..k][z..]);
    PowMonotone(b, k - z, |v| - z);
  }

  /** The digits of the number in a buffer. */
  method StripZeros(buf: array<nat>, b: nat, length: nat) returns (digits: seq<nat>)
    requires b > 1 && AreDigits(b, buf[..]) && InUse(buf[..], length)
    ensures digits == ReversedDigits(b, BigEndian(b, buf[..]))
  {
    var it := buf.Length - length;
    while it < buf.Length && buf[it] == 0
      invariant it <= buf.Length && forall i :: 0 <= i < it ==> buf[i] == 0
    {
      it := it + 1;
    }
    digits := buf[it..];
    assert buf[..] == Zeros(it) + digits;
    LeadingOf(Zeros(it), digits, 0);
    Normal(b, buf[..]);
  }

  lemma LeadingZeroNumber(b: nat, s: seq<nat>)
    requires forall i :: 0 <= i < |s| ==> s[i] == 0
    ensures BigEndian(b, s) == 0 && InUse(s, 0) && (b > 0 ==> AreDigits(b, s))
  {
    HighZeros(b, s, |s|);
  }

  lemma ByteFits(v: Bytes, k: nat, zeroes: nat, room: nat)
    requires zeroes <= k < |v| && (forall i :: 0 <= i < zeroes ==> v[i] == 0) && Pow(256, |v| - zeroes) <= room
    ensures 256 * BigEndian(256, v[..k]) + v[k] == BigEndian(256, v[..k + 1]) < room
  {
    hide Pow;
    assert v[..k + 1][..k] == v[..k];
    PrefixFits(256, v, zeroes, k + 1, room);
  }

  /** Converts bytes to base 58 digits, without leading zeros. */
  method BytesToDigits(v: Bytes, zeroes: nat) returns (digits: seq<nat>)
    requires zeroes <= |v| && forall i :: 0 <= i < zeroes ==> v[i] == 0
    ensures digits == ReversedDigits(58, BigEndian(256, v))
  {
    hide BigEndian, Pow, ReversedDigits, InUse;
    var size := (|v| - zeroes) * 138 / 100 + 1;
    var b58 := new nat[size](_ => 0);
    EncoderRoom(|v| - zeroes);
    LeadingZeroNumber(58, b58[..]);
    LeadingZeroNumber(256, v[..zeroes]);
    var length, p := 0, zeroes;
    while p < |v|
      invariant zeroes <= p <= |v| && AreDigits(58, b58[..]) && InUse(b58[..], length)
      invariant BigEndian(58, b58[..]) == BigEndian(256, v[..p])
    {
      ByteFits(v, p, zeroes, Pow(58, size));
      length := MulAdd(b58, 58, 256, v[p], length);
      p := p + 1;
    }
    assert v[..p] == v;
    digits := StripZeros(b58, 58, length);
  }

  method EncodeBase58(v: Bytes) returns (str: string)
    ensures str == Encoded(v)
  {
    var zeroes := 0;
    while zeroes < |v| && v[zeroes] == 0
      invariant zeroes <= |v| && forall i :: 0 <= i < zeroes ==> v[i] == 0
    {
      zeroes := zeroes + 1;
    }
    assert v == v[..zeroes] + v[zeroes..];
    LeadingOf(v[..zeroes], v[zeroes..], 0);
    var digits := BytesToDigits(v, zeroes);
    str := Ones(zeroes) + Text(digits);
  }

  /** The characters before the first space. */
  predicate IsWord(w: string, s: string) {
    w <= s && (forall i :: 0 <= i < |w| ==> !IsSpace(w[i])) && (|w| < |s| ==> IsSpace(s[|w|]))
  }

  /** Converts the characters up to the first space to bytes, without leading zeros; fails at an invalid one. */
  method DigitsToBytes(m: DigitMap, s: string, zeroes: nat, ghost w: string)
    returns (bytes: Option<seq<nat>>, psz: nat)
    requires forall c :: -1 <= m(c) < 58
    requires IsWord(w, s) && zeroes <= |w| && forall i :: 0 <= i < zeroes ==> m(w[i]) == 0
    ensures bytes.Some? <==> AllDigits(m, w)
    ensures bytes.Some? ==> bytes.value == ReversedDigits(256, BigEndian(58, DigitsOf(m, w))) && psz == |w|
  {
    hide BigEndian, Pow, ReversedDigits, IsSpace, AreDigits, InUse, DigitsOf;
    psz := zeroes;
    var size := (|s| - psz) * 733 / 1000 + 1;
    var b256 := new nat[size](_ => 0);
    DecoderRoom(|s| - zeroes);
    LeadingZeroNumber(256, b256[..]);
    LeadingZeroNumber(58, DigitsOf(m, w[..psz]));
    var length := 0;
    while psz < |s| && !IsSpace(s[psz])
      invariant zeroes <= psz <= |w| && AreDigits(256, b256[..]) && InUse(b256[..], length)
      invariant AllDigits(m, w[..psz]) && BigEndian(256, b256[..]) == BigEndian(58, DigitsOf(m, w[..psz]))
    {
      assert s[psz] == w[psz];
      var carry := m(s[psz]);
      if carry == -1 { return None, psz; }
      DigitFits(m, w, psz, zeroes, |s|, Pow(256, size));
      length := MulAdd(b256, 256, 58, carry, length);
      psz := psz + 1;
    }
    assert w[..psz] == w;
    var digits := StripZeros(b256, 256, length);
    bytes := Some(digits);
  }

  lemma DigitFits(m: DigitMap, w: string, k: nat, zeroes: nat, n: nat, room: nat)
    requires zeroes <= k < |w| <= n && AllDigits(m, w[..k]) && 0 <= m(w[k]) < 58
    requires (forall i :: 0 <= i < zeroes ==> m(w[i]) == 0) && Pow(58, n - zeroes) <= room
    ensures AllDigits(m, w[..k + 1])
    ensures 58 * BigEndian(58, DigitsOf(m, w[..k])) + m(w[k]) == BigEndian(58, DigitsOf(m, w[..k + 1])) < room
  {
    assert w[..k + 1] == w[..k] + [w[k]];
    var d := DigitsOf(m, w[..k + 1]);
    assert d[..k] == DigitsOf(m, w[..k]) && d[..k + 1] == d;
    PowMonotone(58, k + 1 - zeroes, n - zeroes);
    PrefixFits(58, d, zeroes, k + 1, room);
  }

  method CountOnes(s: string, ghost w: string) returns (zeroes: nat)
    requires IsWord(w, s)
    ensures zeroes == Leading(w, '1')
  {
    zeroes := 0;
    while zeroes < |s| && s[zeroes] == '1'
      invariant zeroes <= |w| && forall i :: 0 <= i < zeroes ==> w[i] == '1'
    {
      zeroes := zeroes + 1;
    }
    assert w == w[..zeroes] + w[zeroes..];
    LeadingOf(w[..zeroes], w[zeroes..], '1');
  }

  /** Decodes a C string. */
  method DecodeBase58(text: string) returns (r: Option<Bytes>)
    ensures r == Decoded(CString(text))
  {
    var s := SkipSpaces(CString(text));
    ghost var w := Word(s);
    var zeroes := CountOnes(s, w);
    var bytes, psz := DigitsToBytes(CharDigit, s, zeroes, w);
    if bytes.None? { return None; }
    if SkipSpaces(s[psz..]) != [] { return None; }
    var v := Zeros(zeroes) + bytes.value;
    ghost var decoded: Bytes := DecodedDigits(w);
    assert v == decoded;
    r := Some(v);
  }
}
