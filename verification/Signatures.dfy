/** The canonical form of an Ethereum signature: 65 bytes whose last byte is the recovery
    value V, exchanged as hexadecimal text (Base16, section 8 of RFC 4648). */
module Signatures {
  import opened Wrappers

  type byte = b: int | 0 <= b < 256

  const SIGNATURE_LENGTH := 65

  // ----- encoding/hex -----

  function HexChar(d: int): char
    requires 0 <= d < 16
  {
    if d < 10 then ('0' as int + d) as char else ('a' as int + d - 10) as char
  }

  function HexValue(c: char): (v: Option<int>)
    ensures v.Some? ==> 0 <= v.value < 16
  {
    if '0' <= c <= '9' then Some(c as int - '0' as int)
    else if 'a' <= c <= 'f' then Some(c as int - 'a' as int + 10)
    else if 'A' <= c <= 'F' then Some(c as int - 'A' as int + 10)
    else None
  }

  /** The lower-case text of a byte string. */
  function EncodeToString(bytes: seq<byte>): (s: string)
    ensures |s| == 2 * |bytes|
  {
    if bytes == [] then "" else [HexChar(bytes[0] / 16), HexChar(bytes[0] % 16)] + EncodeToString(bytes[1..])
  }

  /** The bytes of a text of either letter case; `None` for odd lengths and other characters. */
  function DecodeString(s: string): (r: Option<seq<byte>>) {
    if s == "" then Some([])
    else if |s| == 1 then None
    else
      match (HexValue(s[0]), HexValue(s[1]), DecodeString(s[2..]))
      case (Some(hi), Some(lo), Some(rest)) => Some([16 * hi + lo] + rest)
      case _ => None
  }

  /** Two characters for a byte, the high half first, from the Base16 alphabet in lower case. */
  lemma HexAlphabet(b: byte)
    ensures EncodeToString([b]) == ["0123456789abcdef"[b / 16], "0123456789abcdef"[b % 16]]
  {
    assert [b][1..] == [];
    AlphabetChar(b / 16);
    AlphabetChar(b % 16);
  }

  lemma AlphabetChar(d: int)
    requires 0 <= d < 16
    ensures HexChar(d) == "0123456789abcdef"[d]
  {
    assert "0123456789abcdef"[..10] == "0123456789" && "0123456789abcdef"[10..] == "abcdef";
  }

  function LowerChar(c: char): char {
    if 'A' <= c <= 'Z' then (c as int - 'A' as int + 'a' as int) as char else c
  }

  function Lower(s: string): (t: string)
    ensures |t| == |s|
    ensures forall i :: 0 <= i < |s| ==> t[i] == LowerChar(s[i])
  {
    seq(|s|, i requires 0 <= i < |s| => LowerChar(s[i]))
  }

  lemma {:induction false} DecodeEncode(bytes: seq<byte>)
    ensures DecodeString(EncodeToString(bytes)) == Some(bytes)
  {
    if bytes != [] {
      var s := EncodeToString(bytes);
      assert s[2..] == EncodeToString(bytes[1..]);
      DecodeEncode(bytes[1..]);
      assert HexValue(s[0]) == Some(bytes[0] / 16) && HexValue(s[1]) == Some(bytes[0] % 16);
      assert [bytes[0]] + bytes[1..] == bytes;
    }
  }

  /** A text that decodes has the lower-case text as the encoding of its bytes. */
  lemma {:induction false} EncodeDecode(s: string)
    requires DecodeString(s).Some?
    ensures EncodeToString(DecodeString(s).value) == Lower(s)
  {
    if s != "" {
      EncodeDecode(s[2..]);
      var bytes := DecodeString(s).value;
      assert bytes[1..] == DecodeString(s[2..]).value;
      NibbleCase(s[0]);
      NibbleCase(s[1]);
      assert bytes[0] / 16 == HexValue(s[0]).value && bytes[0] % 16 == HexValue(s[1]).value;
      assert Lower(s) == [LowerChar(s[0]), LowerChar(s[1])] + Lower(s[2..]);
    }
  }

  lemma NibbleCase(c: char)
    ensures || HexValue(LowerChar(c)) == HexValue(c)
            || ('G' <= c <= 'Z' && HexValue(c).None? && HexValue(LowerChar(c)).None?)
    ensures HexValue(c).Some? ==> HexChar(HexValue(c).value) == LowerChar(c)
  {}

  lemma {:induction false} CaseIgnored(s: string)
    ensures DecodeString(Lower(s)) == DecodeString(s)
  {
    if |s| >= 2 {
      NibbleCase(s[0]);
      NibbleCase(s[1]);
      assert Lower(s)[2..] == Lower(s[2..]);
      CaseIgnored(s[2..]);
    }
  }

  // ----- the two forms of V -----

  /** The recovery bit as the elliptic-curve library wants it: 27 and 28 become 0 and 1. */
  function RawV(v: byte): byte { if v == 27 || v == 28 then v - 27 else v }

  /** The recovery value as Ethereum writes it: 0 and 1 become 27 and 28. */
  function EthV(v: byte): byte { if v == 0 || v == 1 then v + 27 else v }

  /** Two signatures that denote the same R, S and recovery bit. */
  predicate SameSignature(a: seq<byte>, b: seq<byte>) {
    |a| == SIGNATURE_LENGTH && |b| == SIGNATURE_LENGTH && a[..64] == b[..64] && RawV(a[64]) == RawV(b[64])
  }

  datatype Decoded = Decoded(bytes: seq<byte>, hex: string)

  /** The library form of the bytes and the stored hexadecimal text of one signature. */
  function Canonical(sig: seq<byte>): Result<Decoded, string> {
    if |sig| != SIGNATURE_LENGTH then Failure("invalid signature length")
    else Success(Decoded(sig[64 := RawV(sig[64])], EncodeToString(sig[64 := EthV(sig[64])])))
  }

  /** Rewrites V in the given buffer and returns the stored text of a copy. */
  method SwitchSignatureValueV(decodedSig: array<byte>) returns (r: Result<string, string>)
    modifies decodedSig
    ensures match Canonical(old(decodedSig[..]))
            case Failure(e) => r == Failure(e) && decodedSig[..] == old(decodedSig[..])
            case Success(d) => r == Success(d.hex) && decodedSig[..] == d.bytes
    ensures r.Success? <==> decodedSig.Length == 65
    ensures r.Success? ==>
              var v := old(decodedSig[64]);
              && DecodeString(r.value)
                 == Some(old(decodedSig[..64]) + [if v == 0 then 27 else if v == 1 then 28 else v])
              && decodedSig[..] == old(decodedSig[..64]) + [if v == 27 then 0 else if v == 28 then 1 else v]
  {
    if decodedSig.Length != SIGNATURE_LENGTH {
      return Failure("invalid signature length");
    }
    ghost var sig := decodedSig[..];
    var ethSig := new byte[decodedSig.Length](i requires 0 <= i < decodedSig.Length reads decodedSig => decodedSig[i]);
    assert ethSig[..] == sig;
    if decodedSig[64] == 0 || decodedSig[64] == 1 {
      ethSig[64] := ethSig[64] + 27;
    } else if decodedSig[64] == 27 || decodedSig[64] == 28 {
      decodedSig[64] := decodedSig[64] - 27;
    }
    assert ethSig[..] == sig[64 := EthV(sig[64])];
    assert decodedSig[..] == sig[64 := RawV(sig[64])];
    DecodeEncode(ethSig[..]);
    assert sig[64 := EthV(sig[64])] == sig[..64] + [EthV(sig[64])];
    assert sig[64 := RawV(sig[64])] == sig[..64] + [RawV(sig[64])];
    r := Success(EncodeToString(ethSig[..]));
  }

  function DecodeSignature(signature: string): Result<Decoded, string> {
    match DecodeString(signature)
    case None => Failure("invalid hex")
    case Some(bytes) => Canonical(bytes)
  }

  /** Exactly the hexadecimal texts of 65 bytes are accepted. */
  lemma AcceptedIff(signature: string)
    ensures DecodeSignature(signature).Success?
            <==> DecodeString(signature).Some? && |DecodeString(signature).value| == 65
    ensures forall bytes: seq<byte> :: |bytes| == 65 ==> DecodeSignature(EncodeToString(bytes)).Success?
  {
    forall bytes: seq<byte> | |bytes| == 65 { DecodeEncode(bytes); }
  }

  /** Two accepted texts store the same text exactly when they denote the same signature,
      and exactly when they hand the same bytes to the recovery function. So differences of
      letter case and of V as 0/27 or 1/28 vanish, and no others do. */
  lemma StoredFormIffSameSignature(s: string, t: string)
    requires DecodeSignature(s).Success? && DecodeSignature(t).Success?
    ensures var d, e := DecodeSignature(s).value, DecodeSignature(t).value;
            && (d.hex == e.hex <==> SameSignature(DecodeString(s).value, DecodeString(t).value))
            && (d.hex == e.hex <==> d.bytes == e.bytes)
  {
    var a, b := DecodeString(s).value, DecodeString(t).value;
    var x, y := a[64 := EthV(a[64])], b[64 := EthV(b[64])];
    DecodeEncode(x);
    DecodeEncode(y);
    SplitAt64(a, EthV(a[64]), b, EthV(b[64]));
    SplitAt64(a, RawV(a[64]), b, RawV(b[64]));
  }

  lemma SplitAt64(a: seq<byte>, v: byte, b: seq<byte>, w: byte)
    requires |a| == |b| == SIGNATURE_LENGTH
    ensures a[64 := v] == b[64 := w] <==> a[..64] == b[..64] && v == w
  {
    if a[64 := v] == b[64 := w] {
      assert a[..64] == a[64 := v][..64] && b[..64] == b[64 := w][..64];
      assert a[64 := v][64] == v && b[64 := w][64] == w;
    }
  }

  /** Letter case never matters, to acceptance or to the result. */
  lemma LetterCaseIgnored(s: string, t: string)
    requires Lower(s) == Lower(t)
    ensures DecodeSignature(s) == DecodeSignature(t)
  {
    CaseIgnored(s);
    CaseIgnored(t);
  }

  /** Decoding the stored text returns the stored pair again. */
  lemma DecodeStored(s: string)
    requires DecodeSignature(s).Success?
    ensures DecodeSignature(DecodeSignature(s).value.hex) == DecodeSignature(s)
  {
    var a := DecodeString(s).value;
    var x := a[64 := EthV(a[64])];
    DecodeEncode(x);
    assert x[64 := RawV(x[64])] == a[64 := RawV(a[64])];
    assert x[64 := EthV(x[64])] == x;
  }
}
