/** The loops of the Bech32 encoder and decoder. */
module Bech32Codec {
  import opened Basics
  import opened BitOps
  import opened PolyMod
  import opened Bech32

  /** Adding the chosen constants one after the other. */
  lemma {:induction false} AddChosen(d: nat, c0: nat, ks: seq<nat>, n: nat)
    requires n < |ks|
    ensures Xor(d, Chosen(Shr(c0, n), ks[n..])) ==
      Xor(Xor(d, Select(Bit(c0, n), ks[n])), Chosen(Shr(c0, n + 1), ks[n + 1..]))
  {
    ShrShr(c0, n, 1);
    assert ks[n..][1..] == ks[n + 1..];
    assert Shr(Shr(c0, n), 1) == Shr(c0, n) / 2;
    XorAssociates(d, Select(Bit(c0, n), ks[n]), Chosen(Shr(c0, n + 1), ks[n + 1..]));
  }

  /** Takes one symbol into the remainder. */
  method TakeSymbol(c: nat, v: nat) returns (r: nat)
    ensures r == Step(c, v)
  {
    var c0 := Shr(c, 25);
    r := Xor(Shl(Trunc(c, 25), 5), v);
    ghost var d := r;
    assert GENERATOR[0..] == GENERATOR;
    for n := 0 to |GENERATOR|
      invariant Xor(r, Chosen(Shr(c0, n), GENERATOR[n..])) == Xor(d, Chosen(c0, GENERATOR))
    {
      AddChosen(r, c0, GENERATOR, n);
      if Bit(c0, n) { r := Xor(r, GENERATOR[n]); }
    }
    var s, g := Shl(Trunc(c, 25), 5), Chosen(c0, GENERATOR);
    XorAssociates(s, v, g);
    XorCommutes(v, g);
    XorAssociates(s, g, v);
  }

  method ComputePolyMod(v: seq<nat>) returns (c: nat)
    ensures c == PolyFrom(1, v)
  {
    c := 1;
    assert v[0..] == v;
    for i := 0 to |v|
      invariant PolyFrom(c, v[i..]) == PolyFrom(1, v)
    {
      assert v[i..][1..] == v[i + 1..];
      c := TakeSymbol(c, v[i]);
    }
  }

  method ExpandPrefix(hrp: string) returns (ret: seq<nat>)
    requires AreBytes(hrp)
    ensures ret == ExpandHRP(hrp)
  {
    var buf := new nat[2 * |hrp| + 1];
    for i := 0 to |hrp|
      invariant forall j :: 0 <= j < i ==> buf[j] == hrp[j] as int / 32
      invariant forall j :: 0 <= j < i ==> buf[j + |hrp| + 1] == hrp[j] as int % 32
    {
      buf[i] := hrp[i] as int / 32;
      buf[i + |hrp| + 1] := hrp[i] as int % 32;
    }
    buf[|hrp|] := 0;
    ret := buf[..];
    forall k | 0 <= k < |ret| ensures ret[k] == ExpandHRP(hrp)[k] {
      if k > |hrp| { assert buf[(k - |hrp| - 1) + |hrp| + 1] == hrp[k - |hrp| - 1] as int % 32; }
    }
  }

  lemma {:induction false} UnpackAt(n: nat, k: nat, i: nat)
    requires i < k
    ensures Unpack(n, k)[i] == Trunc(Shr(n, 5 * (k - 1 - i)), 5)
    decreases k
  {
    hide Trunc;
    if i < k - 1 {
      UnpackAt(Shr(n, 5), k - 1, i);
      ShrShr(n, 5, 5 * (k - 2 - i));
    }
  }

  /** The five-bit groups of a remainder. */
  method Groups(mod: nat) returns (ret: seq<nat>)
    ensures ret == Unpack(mod, CHECKSUM_SIZE)
  {
    ret := [];
    ghost var groups := Unpack(mod, CHECKSUM_SIZE);
    for i := 0 to CHECKSUM_SIZE
      invariant |ret| == i && ret == groups[..i]
    {
      UnpackAt(mod, CHECKSUM_SIZE, i);
      ret := ret + [Trunc(Shr(mod, 5 * (5 - i)), 5)];
    }
  }

  method CreateChecksum(encoding: Encoding, hrp: string, values: seq<nat>) returns (ret: seq<nat>)
    requires AreBytes(hrp)
    ensures ret == ChecksumFor(encoding, hrp, values)
  {
    var prefix := ExpandPrefix(hrp);
    var enc := prefix + values + Zeros(CHECKSUM_SIZE);
    var p := ComputePolyMod(enc);
    ret := Groups(Xor(p, ConstFor(encoding)));
  }

  lemma NextCharacter(prefix: string, text: string, i: nat)
    requires i < |text|
    ensures prefix + text[..i] + [text[i]] == prefix + text[..i + 1]
  {
  }

  method EncodeString(encoding: Encoding, hrp: string, values: seq<nat>) returns (ret: string)
    requires AreBytes(hrp) && Symbols(values)
    ensures ret == Encode(encoding, hrp, values)
  {
    hide Charset, Text, ChecksumFor;
    var checksum := CreateChecksum(encoding, hrp, values);
    var combined := values + checksum;
    ghost var text := Text(combined);
    ret := hrp + "1";
    for i := 0 to |combined|
      invariant ret == hrp + "1" + text[..i]
    {
      NextCharacter(hrp + "1", text, i);
      ret := ret + [Charset(combined[i])];
    }
    assert text[..|combined|] == text;
  }

  /** Checks the characters: printable, and not of both cases. */
  method CheckCharacters(str: string) returns (ok: bool)
    ensures ok == CharactersOk(str)
  {
    var lower, upper := false, false;
    for i := 0 to |str|
      invariant forall j :: 0 <= j < i ==> Printable(str[j])
      invariant lower <==> exists j :: 0 <= j < i && IsLower(str[j])
      invariant upper <==> exists j :: 0 <= j < i && IsUpper(str[j])
    {
      var c := str[i];
      if IsLower(c) {
        lower := true;
      } else if IsUpper(c) {
        upper := true;
      } else if !Printable(c) {
        return false;
      }
    }
    return !(lower && upper);
  }

  method FindSeparator(str: string) returns (pos: int)
    ensures pos == LastOne(str)
  {
    pos := |str| - 1;
    while pos >= 0 && str[pos] != '1'
      invariant -1 <= pos < |str| && forall i :: pos < i < |str| ==> str[i] != '1'
    {
      pos := pos - 1;
    }
  }

  /** The values of the data part, if all its characters have one. */
  method ReadValues(w: string) returns (ok: bool, values: seq<nat>)
    ensures ok == AllValues(w) && (ok ==> values == Values(w))
  {
    values := [];
    for i := 0 to |w|
      invariant |values| == i && forall j :: 0 <= j < i ==> CharsetRev(w[j]) >= 0 && values[j] == CharsetRev(w[j])
    {
      var rev := CharsetRev(w[i]);
      if rev == -1 { return false, []; }
      values := values + [rev];
    }
    ok := true;
  }

  method LowerString(s: string) returns (r: string)
    ensures r == Lower(s)
  {
    r := [];
    for i := 0 to |s|
      invariant |r| == i && forall j :: 0 <= j < i ==> r[j] == LowerCase(s[j])
    {
      r := r + [LowerCase(s[i])];
    }
  }

  method DecodeString(str: string) returns (r: DecodeResult)
    ensures r == Decode(str)
  {
    var ok := CheckCharacters(str);
    if !ok { return Rejected; }
    var pos := FindSeparator(str);
    if |str| > 90 || pos == -1 || pos == 0 || pos + 7 > |str| { return Rejected; }
    var good, values := ReadValues(str[pos + 1..]);
    if !good { return Rejected; }
    var hrp := LowerString(str[..pos]);
    PrintableBytes(str, pos);
    var prefix := ExpandPrefix(hrp);
    var check := ComputePolyMod(prefix + values);
    var encoding := EncodingOf(check);
    if encoding == INVALID { return Rejected; }
    return Decoded(encoding, hrp, values[..|values| - 6]);
  }

  lemma PrintableBytes(s: string, pos: nat)
    requires pos <= |s| && CharactersOk(s)
    ensures AreBytes(Lower(s[..pos]))
  {
    forall i | 0 <= i < pos ensures Lower(s[..pos])[i] < 256 as char { assert Printable(s[i]); }
  }
}
