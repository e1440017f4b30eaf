/** Bytes, fixed-width integer layouts and the escaped-hex text form used to
    put binary values into search filters (`\01\05\00…`). */
module Bytes {
  import opened Wrappers
  import Seqs

  type byte = x: int | 0 <= x < 256

  function Pow256(k: nat): (p: nat)
    ensures p >= 1
  {
    if k == 0 then 1 else 256 * Pow256(k - 1)
  }

  // ---------------------------------------------------------------------
  // Fixed-width unsigned integers

  /** `n` as `k` bytes, most significant first. */
  function BigEndian(n: nat, k: nat): (r: seq<byte>)
    requires n < Pow256(k)
    ensures |r| == k
    decreases k
  {
    if k == 0 then [] else BigEndian(n / 256, k - 1) + [n % 256]
  }

  function FromBigEndian(bs: seq<byte>): (n: nat)
    decreases |bs|
  {
    if |bs| == 0 then 0 else FromBigEndian(bs[..|bs| - 1]) * 256 + bs[|bs| - 1]
  }

  /** `n` as `k` bytes, least significant first. */
  function LittleEndian(n: nat, k: nat): (r: seq<byte>)
    requires n < Pow256(k)
    ensures |r| == k
    decreases k
  {
    if k == 0 then [] else [n % 256] + LittleEndian(n / 256, k - 1)
  }

  function FromLittleEndian(bs: seq<byte>): (n: nat)
    decreases |bs|
  {
    if |bs| == 0 then 0 else bs[0] + 256 * FromLittleEndian(bs[1..])
  }

  lemma {:induction false} BigEndianRoundTrip(n: nat, k: nat)
    requires n < Pow256(k)
    ensures FromBigEndian(BigEndian(n, k)) == n
    decreases k
  {
    if k > 0 {
      BigEndianRoundTrip(n / 256, k - 1);
      var r := BigEndian(n, k);
      assert r[..k - 1] == BigEndian(n / 256, k - 1);
    }
  }

  lemma {:induction false} FromBigEndianBound(bs: seq<byte>)
    ensures FromBigEndian(bs) < Pow256(|bs|)
    decreases |bs|
  {
    if |bs| > 0 {
      FromBigEndianBound(bs[..|bs| - 1]);
    }
  }

  lemma {:induction false} BigEndianOfValue(bs: seq<byte>)
    ensures FromBigEndian(bs) < Pow256(|bs|)
    ensures BigEndian(FromBigEndian(bs), |bs|) == bs
    decreases |bs|
  {
    FromBigEndianBound(bs);
    if |bs| > 0 {
      var p := bs[..|bs| - 1];
      BigEndianOfValue(p);
      var n := FromBigEndian(bs);
      assert n / 256 == FromBigEndian(p) && n % 256 == bs[|bs| - 1];
      assert bs == p + [bs[|bs| - 1]];
    }
  }

  lemma {:induction false} LittleEndianRoundTrip(n: nat, k: nat)
    requires n < Pow256(k)
    ensures FromLittleEndian(LittleEndian(n, k)) == n
    decreases k
  {
    if k > 0 {
      LittleEndianRoundTrip(n / 256, k - 1);
      var r := LittleEndian(n, k);
      assert r[1..] == LittleEndian(n / 256, k - 1);
    }
  }

  lemma {:induction false} LittleEndianOfValue(bs: seq<byte>)
    ensures FromLittleEndian(bs) < Pow256(|bs|)
    ensures LittleEndian(FromLittleEndian(bs), |bs|) == bs
    decreases |bs|
  {
    if |bs| > 0 {
      LittleEndianOfValue(bs[1..]);
      var n := FromLittleEndian(bs);
      assert n / 256 == FromLittleEndian(bs[1..]) && n % 256 == bs[0];
      assert bs == [bs[0]] + bs[1..];
    }
  }

  // ---------------------------------------------------------------------
  // Escaped hex text

  /** The lowercase hex digits. */
  predicate IsLowerHex(c: char) {
    '0' <= c <= '9' || 'a' <= c <= 'f'
  }

  predicate IsHexDigit(c: char) {
    '0' <= c <= '9' || 'a' <= c <= 'f' || 'A' <= c <= 'F'
  }

  function HexChar(d: nat): (c: char)
    requires d < 16
    ensures IsLowerHex(c)
  {
    if d < 10 then ('0' as int + d) as char else ('a' as int + d - 10) as char
  }

  /** The value of a hex digit of either case. */
  function HexValue(c: char): (d: nat)
    requires IsHexDigit(c)
    ensures d < 16
    ensures IsLowerHex(c) ==> HexChar(d) == c
  {
    if '0' <= c <= '9' then (c as int - '0' as int) as nat
    else if 'a' <= c <= 'f' then (c as int - 'a' as int + 10) as nat
    else (c as int - 'A' as int + 10) as nat
  }

  /** One byte as two lowercase hex digits. */
  function Hex2(b: byte): string {
    [HexChar(b / 16), HexChar(b % 16)]
  }

  /** Every byte as its two hex digits, no separators. */
  function HexString(bs: seq<byte>): (s: string)
    ensures |s| == 2 * |bs|
  {
    if |bs| == 0 then [] else Hex2(bs[0]) + HexString(bs[1..])
  }

  /** The search-ready form: a backslash and two lowercase hex digits per byte. */
  function Escape(bs: seq<byte>): (s: string)
    ensures |s| == 3 * |bs|
  {
    if |bs| == 0 then [] else ['\\'] + Hex2(bs[0]) + Escape(bs[1..])
  }

  /** Escaping works byte by byte, so it distributes over concatenation. */
  lemma {:induction false} EscapeConcat(a: seq<byte>, b: seq<byte>)
    ensures Escape(a + b) == Escape(a) + Escape(b)
    decreases |a|
  {
    if |a| > 0 {
      EscapeConcat(a[1..], b);
      assert (a + b)[0] == a[0];
      assert (a + b)[1..] == a[1..] + b;
      assert Escape(a + b) == ['\\'] + Hex2(a[0]) + Escape(a[1..] + b);
    } else {
      assert a + b == b;
    }
  }

  /** Every group of the escaped form is `\` and the byte's high and low
      nibble as lowercase hex digits. */
  lemma {:induction false} EscapeGroups(bs: seq<byte>)
    ensures forall i :: 0 <= i < |bs| ==> Escape(bs)[3 * i..3 * i + 3] == ['\\'] + Hex2(bs[i])
    ensures forall j :: 0 <= j < |Escape(bs)| ==> (Escape(bs)[j] == '\\' <==> j % 3 == 0)
    ensures forall j :: 0 <= j < |Escape(bs)| && j % 3 != 0 ==> IsLowerHex(Escape(bs)[j])
    decreases |bs|
  {
    if |bs| > 0 {
      EscapeGroups(bs[1..]);
      var s := Escape(bs);
      var t := Escape(bs[1..]);
      assert s == ['\\'] + Hex2(bs[0]) + t;
      forall i | 0 < i < |bs|
        ensures s[3 * i..3 * i + 3] == ['\\'] + Hex2(bs[i])
      {
        assert s[3 * i..3 * i + 3] == t[3 * (i - 1)..3 * (i - 1) + 3];
        assert bs[1..][i - 1] == bs[i];
      }
      forall j | 3 <= j < |s|
        ensures (s[j] == '\\' <==> j % 3 == 0)
        ensures j % 3 != 0 ==> IsLowerHex(s[j])
      {
        assert s[j] == t[j - 3];
      }
    }
  }

  /** Drops every backslash (PHP's `str_replace('\\', '', …)`). */
  function RemoveBackslashes(s: string): (r: string)
    ensures '\\' !in r
  {
    if |s| == 0 then []
    else if s[0] == '\\' then RemoveBackslashes(s[1..])
    else [s[0]] + RemoveBackslashes(s[1..])
  }

  /** Reads pairs of hex digits, high nibble first (PHP's `pack('H*', …)` on
      an even-length string of hex digits); anything else is an error. */
  function HexDecode(s: string): (r: Option<seq<byte>>)
    ensures r.Some? ==> 2 * |r.value| == |s|
  {
    if |s| == 0 then Some([])
    else if |s| == 1 || !IsHexDigit(s[0]) || !IsHexDigit(s[1]) then None
    else
      var rest :- HexDecode(s[2..]);
      Some([HexValue(s[0]) * 16 + HexValue(s[1]) as byte] + rest)
  }

  /** Turns the escaped text form back into bytes, as the source's tests do
      before handing binary values to a converter. */
  function Unescape(s: string): Option<seq<byte>> {
    HexDecode(RemoveBackslashes(s))
  }

  lemma {:induction false} HexDecodeHexString(bs: seq<byte>)
    ensures HexDecode(HexString(bs)) == Some(bs)
    decreases |bs|
  {
    if |bs| > 0 {
      HexDecodeHexString(bs[1..]);
      var s := HexString(bs);
      var h := Hex2(bs[0]);
      assert s == h + HexString(bs[1..]);
      assert s[0] == h[0] && s[1] == h[1];
      assert s[2..] == HexString(bs[1..]);
      assert HexValue(h[0]) == bs[0] / 16 && HexValue(h[1]) == bs[0] % 16;
      assert bs == [bs[0]] + bs[1..];
    }
  }

  lemma {:induction false} RemoveBackslashesOfEscape(bs: seq<byte>)
    ensures RemoveBackslashes(Escape(bs)) == HexString(bs)
    decreases |bs|
  {
    if |bs| > 0 {
      RemoveBackslashesOfEscape(bs[1..]);
      var s := Escape(bs);
      var h := Hex2(bs[0]);
      assert s[0] == '\\';
      assert s[1..] == h + Escape(bs[1..]);
      assert s[1..][1..] == [h[1]] + Escape(bs[1..]);
      assert s[1..][1..][1..] == Escape(bs[1..]);
      assert RemoveBackslashes(s) == RemoveBackslashes(s[1..]);
      assert RemoveBackslashes(s[1..]) == [h[0]] + RemoveBackslashes(s[1..][1..]);
      assert RemoveBackslashes(s[1..][1..]) == [h[1]] + RemoveBackslashes(s[1..][1..][1..]);
      assert HexString(bs) == h + HexString(bs[1..]);
    }
  }

  /** The escaped form loses nothing: unescaping returns the bytes. */
  lemma EscapeRoundTrip(bs: seq<byte>)
    ensures Unescape(Escape(bs)) == Some(bs)
  {
    RemoveBackslashesOfEscape(bs);
    HexDecodeHexString(bs);
  }
}
