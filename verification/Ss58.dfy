/** Base58 text and SS58 addresses of 32-byte public keys. */
module Ss58 {
  import opened Wrappers
  import opened Numerals
  import opened GoSlices

  const SS_PREFIX: seq<byte> := [0x53, 0x53, 0x35, 0x38, 0x50, 0x52, 0x45]
  const SUBSTRATE_PREFIX: seq<byte> := [0x2a]
  const CESS_PREFIX: seq<byte> := [0x50, 0xac]

  // ----- Base58

  /** Digits and letters without 0, I, O and l. */
  function CharOf(d: nat): char
    requires d < 58
  {
    if d < 9 then '1' + d as char
    else if d < 17 then 'A' + (d - 9) as char
    else if d < 22 then 'J' + (d - 17) as char
    else if d < 33 then 'P' + (d - 22) as char
    else if d < 44 then 'a' + (d - 33) as char
    else 'm' + (d - 44) as char
  }

  function DigitOf(c: char): Option<nat> {
    if '1' <= c <= '9' then Some((c - '1') as nat)
    else if 'A' <= c <= 'H' then Some((c - 'A') as nat + 9)
    else if 'J' <= c <= 'N' then Some((c - 'J') as nat + 17)
    else if 'P' <= c <= 'Z' then Some((c - 'P') as nat + 22)
    else if 'a' <= c <= 'k' then Some((c - 'a') as nat + 33)
    else if 'm' <= c <= 'z' then Some((c - 'm') as nat + 44)
    else None
  }

  lemma DigitOfChar(d: nat)
    requires d < 58
    ensures DigitOf(CharOf(d)) == Some(d)
  {
  }

  lemma CharOfDigit(c: char)
    ensures DigitOf(c).Some? ==> DigitOf(c).value < 58 && CharOf(DigitOf(c).value) == c
  {
  }

  predicate IsBase58(s: string) {
    forall i :: 0 <= i < |s| ==> DigitOf(s[i]).Some?
  }

  function ToText(ds: seq<nat>): (s: string)
    requires IsNumeral(ds, 58)
    ensures |s| == |ds|
  {
    seq(|ds|, i requires 0 <= i < |ds| && ds[i] < 58 => CharOf(ds[i]))
  }

  function FromText(s: string): (ds: seq<nat>)
    requires IsBase58(s)
    ensures |ds| == |s| && IsNumeral(ds, 58)
  {
    var ds: seq<nat> := seq(|s|, i requires 0 <= i < |s| && DigitOf(s[i]).Some? => DigitOf(s[i]).value);
    ds
  }

  function Base58Encode(bs: seq<byte>): string {
    ToText(Convert(bs, 256, 58))
  }

  /** Text with a character outside the alphabet decodes to no bytes. */
  function Base58Decode(s: string): seq<byte> {
    if IsBase58(s) then
      var ds := Convert(FromText(s), 58, 256);
      assert forall i :: 0 <= i < |ds| ==> ds[i] < 256;
      ds
    else []
  }

  lemma DecodeEncode(bs: seq<byte>)
    ensures Base58Decode(Base58Encode(bs)) == bs
  {
    var ds := Convert(bs, 256, 58);
    forall i | 0 <= i < |ds| ensures DigitOf(ToText(ds)[i]) == Some(ds[i]) {
      DigitOfChar(ds[i]);
    }
    assert FromText(ToText(ds)) == ds;
    ConvertRoundTrip(bs, 256, 58);
  }

  lemma NeverEmpty(bs: seq<byte>)
    requires bs != []
    ensures Base58Encode(bs) != ""
  {
    DecodeEncode(bs);
    assert FromText("") == [] && Base58Decode("") == [];
  }

  lemma EncodeDecode(s: string)
    requires IsBase58(s)
    ensures Base58Encode(Base58Decode(s)) == s
  {
    var ds := FromText(s);
    ConvertRoundTrip(ds, 58, 256);
    forall i | 0 <= i < |s| ensures ToText(ds)[i] == s[i] {
      CharOfDigit(s[i]);
    }
  }

  const ALPHABET := "123456789" + "ABCDEFGH" + "JKLMN" + "PQRSTUVWXYZ" + "abcdefghijk" + "mnopqrstuvwxyz"

  /** The letter of a digit is the one at its place in the alphabet. */
  lemma LetterAt(d: nat)
    requires d < |ALPHABET|
    ensures |ALPHABET| == 58 && CharOf(d) == ALPHABET[d]
  {
  }

  /** The text stands for the same number as the bytes, and has a "1" in front for each leading zero. */
  lemma EncodesNumber(bs: seq<byte>)
    ensures IsBase58(Base58Encode(bs))
    ensures var ds := FromText(Base58Encode(bs));
            Value(ds, 58) == SetBytes(bs) && LeadingZeros(ds) == LeadingZeros(bs)
  {
    var ds := Convert(bs, 256, 58);
    forall i | 0 <= i < |ds| ensures DigitOf(ToText(ds)[i]) == Some(ds[i]) {
      DigitOfChar(ds[i]);
    }
    assert FromText(ToText(ds)) == ds;
    var z, n := LeadingZeros(bs), Value(bs, 256);
    ValueIgnoresLeadingZeros(z, Digits(n, 58), 58);
    ValueOfDigits(n, 58);
    LeadingZerosOf(z, Digits(n, 58));
  }

  // ----- addresses

  /** blake2b-512, of which only the length of the digest is known. */
  ghost predicate IsSum512(sum: seq<byte> -> seq<byte>) {
    forall x :: |sum(x)| == 64
  }

  function Checksum(sum: seq<byte> -> seq<byte>, prefix: seq<byte>, pub: seq<byte>): (ck: seq<byte>)
    requires |sum(SS_PREFIX + (prefix + pub))| == 64
    ensures |ck| == 2
  {
    sum(SS_PREFIX + (prefix + pub))[..2]
  }

  ghost function Address(sum: seq<byte> -> seq<byte>, prefix: seq<byte>, pub: seq<byte>): string
    requires IsSum512(sum)
  {
    Base58Encode(prefix + pub + Checksum(sum, prefix, pub))
  }

  ghost predicate Accepted(sum: seq<byte> -> seq<byte>, prefix: seq<byte>, address: string)
    requires IsSum512(sum) && |prefix| > 0
  {
    var bs := Base58Decode(address);
    && |bs| == 34 + |prefix|
    && bs[0] == prefix[0]
    && Checksum(sum, prefix, bs[|prefix|..|bs| - 2]) == bs[|bs| - 2..]
  }

  ghost function DecodedKey(sum: seq<byte> -> seq<byte>, prefix: seq<byte>, address: string): Option<seq<byte>>
    requires IsSum512(sum) && |prefix| > 0
  {
    if Accepted(sum, prefix, address) then Some(Base58Decode(address)[|prefix|..|prefix| + 32]) else None
  }

  /** A package-level byte slice literal: its array has no room to spare. */
  ghost predicate IsLiteral(s: Slice, contents: seq<byte>)
    reads s.arr
  {
    s.Valid() && s.off == 0 && s.len == s.arr.Length && s.View() == contents
  }

  method AppendBytes(s: Slice, extra: seq<byte>) returns (r: Slice)
    requires s.Valid()
    modifies s.arr
    ensures r.Valid() && r.View() == old(s.View()) + extra
    ensures s.off + s.len + |extra| > s.arr.Length ==> fresh(r.arr) && s.arr[..] == old(s.arr[..])
  {
    r := Append(s, extra);
  }

  /** Both encoders, with their own prefix. The appends never write to the prefix arrays. */
  method EncodePublicKey(ss: Slice, prefix: Slice, pub: seq<byte>, sum: seq<byte> -> seq<byte>,
                         ghost p: seq<byte>)
    returns (address: Option<string>)
    requires IsSum512(sum) && IsLiteral(ss, SS_PREFIX) && IsLiteral(prefix, p) && ss.arr != prefix.arr
    modifies ss.arr, prefix.arr
    ensures IsLiteral(ss, SS_PREFIX) && IsLiteral(prefix, p)
    ensures address == if |pub| == 32 then Some(Address(sum, p, pub)) else None
  {
    if |pub| != 32 {
      return None;
    }
    var payload := AppendBytes(prefix, pub);
    var input := AppendBytes(ss, payload.View());
    var ck := sum(input.View());
    var whole := AppendBytes(payload, ck[..2]);
    var text := Base58Encode(whole.View());
    NeverEmpty(whole.View());
    if text == "" {
      return None;
    }
    return Some(text);
  }

  method VerityAddress(ss: Slice, prefix: Slice, address: string, sum: seq<byte> -> seq<byte>, ghost p: seq<byte>)
    returns (ok: bool)
    requires IsSum512(sum) && IsLiteral(ss, SS_PREFIX) && IsLiteral(prefix, p) && ss.arr != prefix.arr && |p| > 0
    modifies ss.arr, prefix.arr
    ensures IsLiteral(ss, SS_PREFIX) && IsLiteral(prefix, p)
    ensures ok <==> Accepted(sum, p, address)
  {
    var bs := Base58Decode(address);
    if |bs| != 34 + prefix.len {
      return false;
    }
    if bs[0] != prefix.View()[0] {
      return false;
    }
    var n := prefix.len;
    ChecksumDecides(sum, p, address);
    var ck := ChecksumOf(ss, prefix, bs[n..|bs| - 2], sum, p);
    ok := SameChecksum(ck, bs, n);
  }

  method SameChecksum(ck: seq<byte>, bs: seq<byte>, n: nat) returns (ok: bool)
    requires |ck| == 2 && |bs| == 34 + n
    ensures ok <==> ck[0] == bs[32 + n] && ck[1] == bs[32 + n + 1]
  {
    for i := 0 to 2
      invariant forall j :: 0 <= j < i ==> ck[j] == bs[32 + n + j]
    {
      if ck[i] != bs[32 + n + i] {
        return false;
      }
    }
    return true;
  }

  lemma ChecksumDecides(sum: seq<byte> -> seq<byte>, prefix: seq<byte>, address: string)
    requires IsSum512(sum) && |prefix| > 0
    requires var bs := Base58Decode(address); |bs| == 34 + |prefix| && bs[0] == prefix[0]
    ensures var (bs, n) := (Base58Decode(address), |prefix|);
            var ck := Checksum(sum, prefix, bs[n..|bs| - 2]);
            Accepted(sum, prefix, address) <==> ck[0] == bs[32 + n] && ck[1] == bs[32 + n + 1]
  {
    var bs := Base58Decode(address);
    var last := bs[|bs| - 2..];
    assert last[0] == bs[|bs| - 2] && last[1] == bs[|bs| - 1];
  }

  method ChecksumOf(ss: Slice, prefix: Slice, pub: seq<byte>, sum: seq<byte> -> seq<byte>, ghost p: seq<byte>)
    returns (ck: seq<byte>)
    requires IsSum512(sum) && IsLiteral(ss, SS_PREFIX) && IsLiteral(prefix, p) && ss.arr != prefix.arr && |pub| > 0
    modifies ss.arr, prefix.arr
    ensures IsLiteral(ss, SS_PREFIX) && IsLiteral(prefix, p)
    ensures ck == Checksum(sum, p, pub)
  {
    var data := Append(prefix, pub);
    var input := Append(ss, data.View());
    ck := sum(input.View())[..2];
  }

  /** Both decoders, with their own prefix. */
  method DecodePublicKey(ss: Slice, prefix: Slice, address: string, sum: seq<byte> -> seq<byte>, ghost p: seq<byte>)
    returns (pub: Option<seq<byte>>)
    requires IsSum512(sum) && IsLiteral(ss, SS_PREFIX) && IsLiteral(prefix, p) && ss.arr != prefix.arr && |p| > 0
    modifies ss.arr, prefix.arr
    ensures IsLiteral(ss, SS_PREFIX) && IsLiteral(prefix, p)
    ensures pub == DecodedKey(sum, p, address)
  {
    var ok := VerityAddress(ss, prefix, address, sum, p);
    if !ok {
      return None;
    }
    var data := Base58Decode(address);
    if |data| != 34 + prefix.len {
      return None;
    }
    return Some(data[prefix.len..|data| - 2]);
  }

  // ----- properties

  /** What a decoded address consists of: a prefix, the key, and the first two bytes of the digest of
      "SS58PRE", the network's prefix and the key. */
  ghost predicate Composed(sum: seq<byte> -> seq<byte>, prefix: seq<byte>, bs: seq<byte>,
                           head: seq<byte>, pub: seq<byte>)
    requires IsSum512(sum)
  {
    var digest := sum([0x53, 0x53, 0x35, 0x38, 0x50, 0x52, 0x45] + (prefix + pub));
    bs == head + pub + [digest[0], digest[1]]
  }

  lemma AddressParts(sum: seq<byte> -> seq<byte>, prefix: seq<byte>, pub: seq<byte>)
    requires IsSum512(sum)
    ensures Composed(sum, prefix, Base58Decode(Address(sum, prefix, pub)), prefix, pub)
  {
    DecodeEncode(prefix + pub + Checksum(sum, prefix, pub));
    var digest := sum(SS_PREFIX + (prefix + pub));
    assert Checksum(sum, prefix, pub) == [digest[0], digest[1]];
  }

  /** An address is accepted exactly if it is so composed of 32 key bytes and as many prefix bytes as the
      network's prefix has, of which only the first is compared. */
  lemma AcceptedExactly(sum: seq<byte> -> seq<byte>, prefix: seq<byte>, address: string)
    requires IsSum512(sum) && |prefix| > 0
    ensures Accepted(sum, prefix, address) <==> exists head, pub ::
              && |head| == |prefix| && head[0] == prefix[0] && |pub| == 32
              && Composed(sum, prefix, Base58Decode(address), head, pub)
    ensures Accepted(sum, prefix, address) ==> IsBase58(address)
    ensures forall head, pub ::
              && |head| == |prefix| && head[0] == prefix[0] && |pub| == 32
              && Composed(sum, prefix, Base58Decode(address), head, pub) ==>
              DecodedKey(sum, prefix, address) == Some(pub)
  {
    var bs, n := Base58Decode(address), |prefix|;
    if Accepted(sum, prefix, address) {
      var head, pub := bs[..n], bs[n..|bs| - 2];
      var digest := sum(SS_PREFIX + (prefix + pub));
      assert Checksum(sum, prefix, pub) == [digest[0], digest[1]];
      assert bs == head + pub + bs[|bs| - 2..];
      assert Composed(sum, prefix, bs, head, pub);
    }
    forall head, pub | |head| == n && head[0] == prefix[0] && |pub| == 32 && Composed(sum, prefix, bs, head, pub)
      ensures Accepted(sum, prefix, address) && DecodedKey(sum, prefix, address) == Some(pub)
    {
      var digest := sum(SS_PREFIX + (prefix + pub));
      assert Checksum(sum, prefix, pub) == [digest[0], digest[1]];
      assert bs[n..|bs| - 2] == pub && bs[|bs| - 2..] == [digest[0], digest[1]];
    }
  }

  /** Decoding an encoded key gives the key, for any prefix. */
  lemma RoundTrip(sum: seq<byte> -> seq<byte>, prefix: seq<byte>, pub: seq<byte>)
    requires IsSum512(sum) && |prefix| > 0 && |pub| == 32
    ensures DecodedKey(sum, prefix, Address(sum, prefix, pub)) == Some(pub)
  {
    var bs := prefix + pub + Checksum(sum, prefix, pub);
    DecodeEncode(bs);
    assert bs[|prefix|..|bs| - 2] == pub;
    assert bs[|bs| - 2..] == Checksum(sum, prefix, pub);
  }

  /** No address at all is accepted by both networks. */
  lemma NetworksAreDisjoint(sum: seq<byte> -> seq<byte>, address: string)
    requires IsSum512(sum)
    ensures !(Accepted(sum, SUBSTRATE_PREFIX, address) && Accepted(sum, CESS_PREFIX, address))
  {
  }

  /** An accepted address is the encoding of its key exactly when it carries the whole prefix. */
  lemma CanonicalExactly(sum: seq<byte> -> seq<byte>, prefix: seq<byte>, address: string)
    requires IsSum512(sum) && |prefix| > 0 && Accepted(sum, prefix, address)
    ensures Address(sum, prefix, DecodedKey(sum, prefix, address).value) == address <==>
            Base58Decode(address)[..|prefix|] == prefix
  {
    var bs := Base58Decode(address);
    var pub := bs[|prefix|..|bs| - 2];
    var whole := prefix + pub + Checksum(sum, prefix, pub);
    DecodeEncode(whole);
    EncodeDecode(address);
    SameWhole(prefix, bs, |prefix|);
    assert Address(sum, prefix, pub) == address <==> whole == bs;
  }

  lemma SameWhole(prefix: seq<byte>, bs: seq<byte>, n: nat)
    requires |prefix| == n && |bs| >= n + 2
    ensures prefix + bs[n..|bs| - 2] + bs[|bs| - 2..] == bs <==> bs[..n] == prefix
  {
    var (mid, last) := (bs[n..|bs| - 2], bs[|bs| - 2..]);
    assert bs == bs[..n] + mid + last && (prefix + mid + last)[..n] == prefix;
  }

  /** For the one-byte Substrate prefix every accepted address is canonical. */
  lemma SubstrateCanonical(sum: seq<byte> -> seq<byte>, address: string)
    requires IsSum512(sum) && Accepted(sum, SUBSTRATE_PREFIX, address)
    ensures Address(sum, SUBSTRATE_PREFIX, DecodedKey(sum, SUBSTRATE_PREFIX, address).value) == address
  {
    CanonicalExactly(sum, SUBSTRATE_PREFIX, address);
    OneBytePrefix(Base58Decode(address));
  }

  lemma OneBytePrefix(bs: seq<byte>)
    requires bs != [] && bs[0] == SUBSTRATE_PREFIX[0]
    ensures bs[..|SUBSTRATE_PREFIX|] == SUBSTRATE_PREFIX
  {
  }

  /** The two-byte Cess prefix is only checked in its first byte, so every key has other
      accepted addresses besides its encoding, one for each wrong second byte. */
  lemma CessAliases(sum: seq<byte> -> seq<byte>, pub: seq<byte>, second: byte)
    requires IsSum512(sum) && |pub| == 32 && second != 0xac
    ensures var alias := Base58Encode([0x50, second] + pub + Checksum(sum, CESS_PREFIX, pub));
            && DecodedKey(sum, CESS_PREFIX, alias) == Some(pub)
            && alias != Address(sum, CESS_PREFIX, pub)
  {
    var ck := Checksum(sum, CESS_PREFIX, pub);
    var bs: seq<byte> := [0x50, second] + pub + ck;
    DecodeEncode(bs);
    DecodeEncode(CESS_PREFIX + pub + ck);
    PartsOf([0x50, second], pub, ck);
    PartsOf(CESS_PREFIX, pub, ck);
  }

  lemma PartsOf(head: seq<byte>, pub: seq<byte>, ck: seq<byte>)
    requires |head| == |ck| == 2
    ensures var bs := head + pub + ck;
            bs[0] == head[0] && bs[1] == head[1] && bs[2..|bs| - 2] == pub && bs[|bs| - 2..] == ck
  {
  }
}
