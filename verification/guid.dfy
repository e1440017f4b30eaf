/** GUIDs: the textual form `xxxxxxxx-xxxx-xxxx-xxxx-xxxxxxxxxxxx` and the
    mixed-endian packet layout of section 2.3.4.2 of MS-DTYP, in which the
    first three fields are stored least significant byte first. */
module Guid {
  import opened Wrappers
  import opened Bytes

  predicate IsDashPosition(i: int) {
    i == 8 || i == 13 || i == 18 || i == 23
  }

  /** Eight, four, four, four and twelve hex digits (either case) separated
      by dashes. */
  predicate IsGuidShape(s: string) {
    && |s| == 36
    && forall i :: 0 <= i < |s| ==> if IsDashPosition(i) then s[i] == '-' else IsHexDigit(s[i])
  }

  /** The 32 hex digits of a GUID-shaped string, dashes removed. */
  function Digits(s: string): (d: string)
    requires |s| == 36
    ensures |d| == 32
  {
    s[..8] + s[9..13] + s[14..18] + s[19..23] + s[24..]
  }

  lemma {:induction false} HexDecodeAllHex(s: string)
    requires |s| % 2 == 0
    requires forall i :: 0 <= i < |s| ==> IsHexDigit(s[i])
    ensures HexDecode(s).Some?
    decreases |s|
  {
    if |s| > 0 {
      HexDecodeAllHex(s[2..]);
    }
  }

  lemma DigitsAreHex(s: string)
    requires IsGuidShape(s)
    ensures forall i :: 0 <= i < 32 ==> IsHexDigit(Digits(s)[i])
  {
    var d := Digits(s);
    forall i | 0 <= i < 32
      ensures IsHexDigit(d[i])
    {
      var j := if i < 8 then i else if i < 12 then i + 1 else if i < 16 then i + 2 else if i < 20 then i + 3 else i + 4;
      assert d[i] == s[j];
      assert !IsDashPosition(j);
    }
  }

  /** The sixteen bytes a GUID string spells, in the order they are written. */
  function Parse(s: string): (r: Option<seq<byte>>)
    ensures r.Some? <==> IsGuidShape(s)
    ensures r.Some? ==> |r.value| == 16
  {
    if IsGuidShape(s) then
      DigitsAreHex(s);
      HexDecodeAllHex(Digits(s));
      HexDecode(Digits(s))
    else None
  }

  /** The canonical lowercase string form of sixteen bytes. */
  function Format(bs: seq<byte>): string
    requires |bs| == 16
  {
    HexString(bs[..4]) + "-" + HexString(bs[4..6]) + "-" + HexString(bs[6..8]) + "-"
      + HexString(bs[8..10]) + "-" + HexString(bs[10..])
  }

  lemma {:induction false} HexStringConcat(a: seq<byte>, b: seq<byte>)
    ensures HexString(a + b) == HexString(a) + HexString(b)
    decreases |a|
  {
    if |a| > 0 {
      HexStringConcat(a[1..], b);
      assert (a + b)[0] == a[0];
      assert (a + b)[1..] == a[1..] + b;
    } else {
      assert a + b == b;
    }
  }

  lemma {:induction false} HexStringIsHex(bs: seq<byte>)
    ensures forall i :: 0 <= i < |HexString(bs)| ==> IsLowerHex(HexString(bs)[i])
    decreases |bs|
  {
    if |bs| > 0 {
      HexStringIsHex(bs[1..]);
      var s := HexString(bs);
      assert s == Hex2(bs[0]) + HexString(bs[1..]);
    }
  }

  /** Removing the dashes from the canonical form leaves the hex of the
      bytes. */
  lemma FormatDigits(bs: seq<byte>)
    requires |bs| == 16
    ensures |Format(bs)| == 36
    ensures Digits(Format(bs)) == HexString(bs)
  {
    var a, b, c, d, e := HexString(bs[..4]), HexString(bs[4..6]), HexString(bs[6..8]), HexString(bs[8..10]), HexString(bs[10..]);
    var s := Format(bs);
    assert s == a + "-" + b + "-" + c + "-" + d + "-" + e;
    assert s[..8] == a;
    assert s[9..13] == b;
    assert s[14..18] == c;
    assert s[19..23] == d;
    assert s[24..] == e;
    HexStringConcat(bs[..4], bs[4..6]);
    HexStringConcat(bs[..4] + bs[4..6], bs[6..8]);
    HexStringConcat(bs[..4] + bs[4..6] + bs[6..8], bs[8..10]);
    HexStringConcat(bs[..4] + bs[4..6] + bs[6..8] + bs[8..10], bs[10..]);
    assert bs[..4] + bs[4..6] + bs[6..8] + bs[8..10] + bs[10..] == bs;
  }

  /** The canonical form has the GUID shape. */
  lemma FormatShape(bs: seq<byte>)
    requires |bs| == 16
    ensures IsGuidShape(Format(bs))
  {
    var s := Format(bs);
    FormatDigits(bs);
    var d := Digits(s);
    HexStringIsHex(bs);
    forall i | 0 <= i < |s|
      ensures if IsDashPosition(i) then s[i] == '-' else IsHexDigit(s[i])
    {
      if !IsDashPosition(i) {
        var j := if i < 8 then i else if i < 13 then i - 1 else if i < 18 then i - 2 else if i < 23 then i - 3 else i - 4;
        assert s[i] == d[j];
      }
    }
  }

  /** Reading the canonical form of sixteen bytes gives them back. */
  lemma ParseFormat(bs: seq<byte>)
    requires |bs| == 16
    ensures Parse(Format(bs)) == Some(bs)
  {
    FormatShape(bs);
    FormatDigits(bs);
    HexDecodeHexString(bs);
  }

  /** The position, in the written order, of the byte stored at position
      `i` of the packet. */
  function PacketSource(i: nat): (j: nat)
    requires i < 16
    ensures j < 16
  {
    if i < 4 then 3 - i else if i < 6 then 9 - i else if i < 8 then 13 - i else i
  }

  /** The packet layout: the 32-bit, 16-bit and 16-bit leading fields byte
      swapped, the final eight bytes as written. */
  function ToPacket(bs: seq<byte>): (p: seq<byte>)
    requires |bs| == 16
    ensures |p| == 16
    ensures forall i :: 0 <= i < 16 ==> p[i] == bs[PacketSource(i)]
  {
    [bs[3], bs[2], bs[1], bs[0], bs[5], bs[4], bs[7], bs[6]] + bs[8..]
  }

  /** The byte swap is its own inverse, so the packet determines the GUID. */
  lemma PacketInvolution(bs: seq<byte>)
    requires |bs| == 16
    ensures ToPacket(ToPacket(bs)) == bs
  {
    var p := ToPacket(ToPacket(bs));
    forall i | 0 <= i < 16
      ensures p[i] == bs[i]
    {
      assert PacketSource(PacketSource(i)) == i;
    }
  }

  /** The search-ready escaped hex of a GUID string's packet. */
  function ToLdap(s: string): (r: Option<string>)
    ensures r.Some? <==> IsGuidShape(s)
    ensures r.Some? ==> |r.value| == 48
  {
    var bs :- Parse(s);
    Some(Escape(ToPacket(bs)))
  }

  /** The escaped packet gives the GUID back: unescaping it and undoing the
      byte swap yields the bytes the string spells, and the canonical string
      of those bytes reads back as the same GUID. */
  lemma ToLdapRoundTrip(s: string)
    requires IsGuidShape(s)
    ensures Unescape(ToLdap(s).value).Some?
    ensures |Unescape(ToLdap(s).value).value| == 16
    ensures ToPacket(Unescape(ToLdap(s).value).value) == Parse(s).value
    ensures Parse(Format(ToPacket(Unescape(ToLdap(s).value).value))) == Parse(s)
  {
    var bs := Parse(s).value;
    EscapeRoundTrip(ToPacket(bs));
    PacketInvolution(bs);
    ParseFormat(bs);
  }
}
