/** The two byte transcoders of the ONVIF service.  Their "GB" side is one byte per
    character, their "Jovision" side UTF-8 as far as U+00FF. */
module Transcode {
  import opened CTypes
  import opened Wrappers

  // --------------------------------------------------------- UTF-8, RFC 3629

  predicate Tail(b: Byte) {
    0x80 <= b <= 0xBF
  }

  /** Section 4 of RFC 3629: the length of the well-formed character that starts
      `s`, or 0. */
  function CharLen(s: seq<Byte>): (n: nat)
    ensures n <= 4 && n <= |s|
  {
    if s == [] then 0
    else if s[0] <= 0x7F then 1
    else if 0xC2 <= s[0] <= 0xDF then if |s| >= 2 && Tail(s[1]) then 2 else 0
    else if 0xE0 <= s[0] <= 0xEF then
      if |s| >= 3 && Tail(s[1]) && Tail(s[2])
         && (s[0] == 0xE0 ==> s[1] >= 0xA0) && (s[0] == 0xED ==> s[1] <= 0x9F) then 3 else 0
    else if 0xF0 <= s[0] <= 0xF4 then
      if |s| >= 4 && Tail(s[1]) && Tail(s[2]) && Tail(s[3])
         && (s[0] == 0xF0 ==> s[1] >= 0x90) && (s[0] == 0xF4 ==> s[1] <= 0x8F) then 4 else 0
    else 0
  }

  /** Section 3 of RFC 3629: the character number spread over those bytes. */
  function CodePoint(s: seq<Byte>): int
    requires CharLen(s) > 0
  {
    match CharLen(s)
    case 1 => At(s, 0)
    case 2 => (At(s, 0) - 0xC0) * 0x40 + (At(s, 1) - 0x80)
    case 3 => (At(s, 0) - 0xE0) * 0x1000 + (At(s, 1) - 0x80) * 0x40 + (At(s, 2) - 0x80)
    case _ => (At(s, 0) - 0xF0) * 0x4_0000 + (At(s, 1) - 0x80) * 0x1000 + (At(s, 2) - 0x80) * 0x40 + (At(s, 3) - 0x80)
  }

  function At(s: seq<Byte>, i: nat): int
    requires i < |s|
  {
    s[i]
  }

  /** The characters of well-formed UTF-8. */
  function CodePoints(s: seq<Byte>): Option<seq<int>> {
    if s == [] then Some([])
    else if CharLen(s) == 0 then None
    else
      match CodePoints(s[CharLen(s)..])
      case None => None
      case Some(cps) => Some([CodePoint(s)] + cps)
  }

  // ------------------------------------------------------------- the encoder

  function EncodeByte(b: Byte): seq<Byte> {
    if b < 0x80 then [b] else if b < 0xC0 then [0xC2, b] else [0xC3, b - 0x40]
  }

  function Encode(gb: seq<Byte>): seq<Byte> {
    if gb == [] then [] else Encode(gb[..|gb| - 1]) + EncodeByte(gb[|gb| - 1])
  }

  lemma {:induction false} EncodeCons(b: Byte, gb: seq<Byte>)
    ensures Encode([b] + gb) == EncodeByte(b) + Encode(gb)
  {
    hide Encode, EncodeByte;
    if gb == [] {
      EncodeNothing(gb);
      EncodeSnoc(gb, b);
      assert [b] + gb == gb + [b];
    } else {
      var init, last := gb[..|gb| - 1], gb[|gb| - 1];
      EncodeCons(b, init);
      EncodeSnoc(init, last);
      EncodeSnoc([b] + init, last);
      assert [b] + gb == [b] + init + [last] && gb == init + [last];
    }
  }

  /** In Latin-1 a byte is its character's number. */
  function Latin1(gb: seq<Byte>): seq<int> {
    if gb == [] then [] else [At(gb, 0)] + Latin1(gb[1..])
  }

  /** Any byte string is encoded as well-formed UTF-8 for its Latin-1 characters. */
  lemma {:induction false} EncodeIsUtf8(gb: seq<Byte>)
    ensures CodePoints(Encode(gb)) == Some(Latin1(gb))
  {
    if gb != [] {
      var b, rest := gb[0], gb[1..];
      EncodeIsUtf8(rest);
      EncodeCons(b, rest);
      assert gb == [b] + rest;
      FirstCharacter(b, Encode(rest));
      hide CharLen, CodePoint, Encode, EncodeByte;
    }
  }

  lemma FirstCharacter(b: Byte, tail: seq<Byte>)
    ensures var e := EncodeByte(b) + tail;
            e != [] && CharLen(e) == |EncodeByte(b)| && CodePoint(e) == b && e[CharLen(e)..] == tail
  {
  }

  /** An e with an acute accent, and back. */
  lemma AccentExample()
    ensures Encode([0xE9]) == [0xC3, 0xA9] && Decode([0xC3, 0xA9, 0], 0, 1) == [0xE9]
  {
    var b: seq<Byte> := [0xE9];
    assert b[..0] == [];
    assert Decode([0xC3, 0xA9, 0], 2, 0) == [];
  }

  /** `onvif_format_gb_to_Jovision__code`, the output pointer being an index. */
  method GbToJovision(gb: array<Byte>, gbLen: nat, jovision: array<Byte>)
    requires gb != jovision && gbLen <= gb.Length
    requires |Encode(gb[..gbLen])| < jovision.Length
    modifies jovision
    ensures var n := |Encode(gb[..gbLen])|;
            jovision[..n] == Encode(gb[..gbLen]) && jovision[n] == 0
    ensures forall i | |Encode(gb[..gbLen])| < i < jovision.Length :: jovision[i] == old(jovision[i])
  {
    hide Encode, EncodeByte;
    var ptr := 0;
    EncodeNothing(gb[..0]);
    for i := 0 to gbLen
      invariant ptr == |Encode(gb[..i])| && ptr < jovision.Length
      invariant jovision[..ptr] == Encode(gb[..i])
      invariant forall j | ptr <= j < jovision.Length :: jovision[j] == old(jovision[j])
    {
      assert gb[..i + 1] == gb[..i] + [gb[i]];
      EncodeSnoc(gb[..i], gb[i]);
      EncodePrefix(gb[..gbLen], i + 1);
      assert gb[..gbLen][..i + 1] == gb[..i + 1];
      ptr := PutByte(jovision, ptr, gb[i]);
    }
    jovision[ptr] := 0;
  }

  /** One byte of the text, in one or two bytes. */
  method PutByte(jovision: array<Byte>, at: nat, b: Byte) returns (ptr: nat)
    requires at + |EncodeByte(b)| < jovision.Length
    modifies jovision
    ensures ptr == at + |EncodeByte(b)| && jovision[..ptr] == old(jovision[..at]) + EncodeByte(b)
    ensures forall j | ptr <= j < jovision.Length :: jovision[j] == old(jovision[j])
  {
    ptr := at;
    if b < 0x80 {
      jovision[ptr] := b;
    } else if b < 0xC0 {
      jovision[ptr] := 0xC2;
      ptr := ptr + 1;
      jovision[ptr] := b;
    } else {
      jovision[ptr] := 0xC3;
      ptr := ptr + 1;
      jovision[ptr] := b - 0x40;
    }
    ptr := ptr + 1;
  }

  lemma EncodeNothing(gb: seq<Byte>)
    requires gb == []
    ensures Encode(gb) == []
  {
  }

  lemma EncodeSnoc(gb: seq<Byte>, b: Byte)
    ensures Encode(gb + [b]) == Encode(gb) + EncodeByte(b)
  {
    assert (gb + [b])[..|gb|] == gb;
  }

  lemma {:induction false} EncodePrefix(gb: seq<Byte>, i: nat)
    requires i <= |gb|
    ensures |Encode(gb[..i])| <= |Encode(gb)|
  {
    if i < |gb| {
      EncodePrefix(gb[..|gb| - 1], i);
      assert gb[..|gb| - 1][..i] == gb[..i];
    } else {
      assert gb[..i] == gb;
    }
  }

  // ------------------------------------------------------------- the decoder

  /** `unsigned char` addition */
  function Plus(a: Byte, b: int): Byte {
    (a as int + b) % 256
  }

  /** The bytes one round takes, and the byte it gives. */
  function Width(b: Byte): nat {
    if b == 0xC2 || b == 0xC3 then 2 else 1
  }

  /** What `rounds` rounds give, starting at `pos`. */
  function Decode(jovision: seq<Byte>, pos: nat, rounds: nat): (r: seq<Byte>)
    requires pos + 2 * rounds <= |jovision|
    ensures |r| == rounds
    decreases rounds
  {
    if rounds == 0 then []
    else
      var b := jovision[pos];
      var out := if b == 0xC2 then jovision[pos + 1] else if b == 0xC3 then Plus(jovision[pos + 1], 0x40) else b;
      [out] + Decode(jovision, pos + Width(b), rounds - 1)
  }

  /** `onvif_format_Jovision_to__gb_code`.  It runs one round per byte of the given
      length, though a round may take two bytes, so it reads on behind the text. */
  method JovisionToGb(gb: array<Byte>, jovision: array<Byte>, jovisionLen: nat)
    requires gb != jovision && jovisionLen < gb.Length && 2 * jovisionLen <= jovision.Length
    modifies gb
    ensures gb[..jovisionLen] == Decode(jovision[..], 0, jovisionLen) && gb[jovisionLen] == 0
  {
    hide Decode;
    var pos := 0;
    for i := 0 to jovisionLen
      invariant pos <= 2 * i
      invariant Decode(jovision[..], 0, jovisionLen) == gb[..i] + Decode(jovision[..], pos, jovisionLen - i)
    {
      DecodeRound(jovision[..], pos, jovisionLen - i);
      if jovision[pos] == 0xC2 {
        pos := pos + 1;
        gb[i] := jovision[pos];
      } else if jovision[pos] == 0xC3 {
        pos := pos + 1;
        gb[i] := Plus(jovision[pos], 0x40);
      } else {
        gb[i] := jovision[pos];
      }
      pos := pos + 1;
      assert gb[..i + 1] == gb[..i] + [gb[i]];
    }
    DecodeDone(jovision[..], pos);
    gb[jovisionLen] := 0;
  }

  lemma DecodeRound(jovision: seq<Byte>, pos: nat, rounds: nat)
    requires rounds > 0 && pos + 2 * rounds <= |jovision|
    ensures var b := jovision[pos];
            var out := if b == 0xC2 then jovision[pos + 1] else if b == 0xC3 then Plus(jovision[pos + 1], 0x40) else b;
            Decode(jovision, pos, rounds) == [out] + Decode(jovision, pos + Width(b), rounds - 1)
  {
  }

  lemma DecodeDone(jovision: seq<Byte>, pos: nat)
    requires pos <= |jovision|
    ensures Decode(jovision, pos, 0) == []
  {
  }

  /** A C string ends at its first NUL. */
  function CStr(s: seq<Byte>): seq<Byte> {
    if s == [] || s[0] == 0 then [] else [s[0]] + CStr(s[1..])
  }

  /** Decoding what was encoded, with the encoded length, gives the text again up to
      the first NUL, whatever follows the terminator in the buffer. */
  lemma RoundTrip(gb: seq<Byte>, buffer: seq<Byte>)
    requires 0 !in gb
    requires |buffer| >= 2 * |Encode(gb)|
    requires Encode(gb) + [0] <= buffer || gb == []
    ensures CStr(Decode(buffer, 0, |Encode(gb)|)) == gb
  {
    EmptyText(buffer);
    hide Decode, CStr, Encode;
    if gb != [] {
      EncodeLength(gb);
      assert buffer[..|Encode(gb)| + 1] == Encode(gb) + [0];
      RoundTripFrom(gb, buffer, 0, |Encode(gb)|);
    }
  }

  lemma EmptyText(buffer: seq<Byte>)
    ensures Encode([]) == [] && CStr(Decode(buffer, 0, 0)) == []
  {
  }

  lemma {:induction false} EncodeLength(gb: seq<Byte>)
    ensures |gb| <= |Encode(gb)|
  {
    if gb != [] {
      EncodeLength(gb[..|gb| - 1]);
    }
  }

  /** The text `e` stands in the buffer at `pos`, and a NUL behind it. */
  predicate StandsAt(e: seq<Byte>, buffer: seq<Byte>, pos: nat) {
    && pos + |e| < |buffer|
    && (forall k | 0 <= k < |e| :: buffer[pos + k] == e[k])
    && buffer[pos + |e|] == 0
  }

  lemma {:induction false} RoundTripFrom(gb: seq<Byte>, buffer: seq<Byte>, pos: nat, rounds: nat)
    requires 0 !in gb && |gb| <= rounds && pos + 2 * rounds <= |buffer|
    requires StandsAt(Encode(gb), buffer, pos)
    ensures CStr(Decode(buffer, pos, rounds)) == gb
  {
    hide Decode, CStr, Encode, EncodeByte, StandsAt, Width;
    if gb == [] {
      EndOfText(buffer, pos, rounds);
    } else {
      var b, rest := gb[0], gb[1..];
      assert gb == [b] + rest;
      EncodeCons(b, rest);
      DecodeOne(b, Encode(rest), buffer, pos, rounds);
      RoundTripFrom(rest, buffer, pos + Width(buffer[pos]), rounds - 1);
      CStrCons(b, Decode(buffer, pos + Width(buffer[pos]), rounds - 1));
    }
  }

  lemma EndOfText(buffer: seq<Byte>, pos: nat, rounds: nat)
    requires StandsAt(Encode([]), buffer, pos) && pos + 2 * rounds <= |buffer|
    ensures CStr(Decode(buffer, pos, rounds)) == []
  {
  }

  lemma CStrCons(b: Byte, r: seq<Byte>)
    requires b != 0
    ensures CStr([b] + r) == [b] + CStr(r)
  {
  }

  lemma DecodeOne(b: Byte, e: seq<Byte>, buffer: seq<Byte>, pos: nat, rounds: nat)
    requires 0 < rounds && pos + 2 * rounds <= |buffer|
    requires StandsAt(EncodeByte(b) + e, buffer, pos)
    ensures Width(buffer[pos]) == |EncodeByte(b)| <= 2 && StandsAt(e, buffer, pos + |EncodeByte(b)|)
    ensures Decode(buffer, pos, rounds) == [b] + Decode(buffer, pos + |EncodeByte(b)|, rounds - 1)
  {
    var f := EncodeByte(b) + e;
    var w := |EncodeByte(b)|;
    assert buffer[pos] == f[0] && (w == 2 ==> buffer[pos + 1] == f[1]);
    forall k | 0 <= k < |e| ensures buffer[pos + w + k] == e[k] {
      assert buffer[pos + (w + k)] == f[w + k];
    }
  }
}
