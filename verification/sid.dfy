/** Windows security identifiers: the string form `S-<rev>-<authority>-<sub1>-…-<subN>`
    (section 2.4.2.1 of MS-DTYP) and the binary packet form (section 2.4.2.2 of
    MS-DTYP), with the attribute converter that maps between the two. */
module Sid {
  import opened Wrappers
  import Seqs
  import Decimal
  import opened Bytes

  /** Why a conversion was refused (the source's AttributeConverterException). */
  datatype SidError = MalformedString | MalformedBinary

  datatype Sid = Sid(revision: nat, authority: nat, subAuthorities: seq<nat>)

  const AuthorityBound: nat := 0x1_0000_0000_0000
  const SubAuthorityBound: nat := 0x1_0000_0000

  /** Each field fits its slot in the packet: one byte of revision, one
      byte of count, 48 bits of authority and 32 bits per sub-authority. */
  predicate Valid(sid: Sid) {
    && sid.revision < 256
    && sid.authority < AuthorityBound
    && |sid.subAuthorities| < 256
    && forall i :: 0 <= i < |sid.subAuthorities| ==> sid.subAuthorities[i] < SubAuthorityBound
  }

  // ---------------------------------------------------------------------
  // Binary packet

  function EncodeSubAuthorities(subs: seq<nat>): (r: seq<byte>)
    requires forall i :: 0 <= i < |subs| ==> subs[i] < SubAuthorityBound
    ensures |r| == 4 * |subs|
  {
    if |subs| == 0 then [] else LittleEndian(subs[0], 4) + EncodeSubAuthorities(subs[1..])
  }

  function DecodeSubAuthorities(bs: seq<byte>): (r: seq<nat>)
    requires |bs| % 4 == 0
    ensures 4 * |r| == |bs|
    decreases |bs|
  {
    if |bs| == 0 then [] else [FromLittleEndian(bs[..4])] + DecodeSubAuthorities(bs[4..])
  }

  /** The packet: revision, count, big-endian authority, little-endian
      sub-authorities. */
  function Encode(sid: Sid): (bs: seq<byte>)
    requires Valid(sid)
    ensures |bs| == 8 + 4 * |sid.subAuthorities|
    ensures bs[0] == sid.revision && bs[1] == |sid.subAuthorities|
  {
    assert Pow256(6) == AuthorityBound;
    [sid.revision as byte, |sid.subAuthorities| as byte]
      + BigEndian(sid.authority, 6)
      + EncodeSubAuthorities(sid.subAuthorities)
  }

  /** Reads a packet; a short packet or one whose length disagrees with its
      count byte is refused rather than truncated. */
  function Decode(bs: seq<byte>): (r: Result<Sid, SidError>)
    ensures r.Success? <==> |bs| >= 8 && |bs| == 8 + 4 * (bs[1] as int)
  {
    if |bs| < 8 || |bs| != 8 + 4 * (bs[1] as int) then Failure(MalformedBinary)
    else Success(Sid(bs[0], FromBigEndian(bs[2..8]), DecodeSubAuthorities(bs[8..])))
  }

  lemma {:induction false} SubAuthoritiesRoundTrip(subs: seq<nat>)
    requires forall i :: 0 <= i < |subs| ==> subs[i] < SubAuthorityBound
    ensures DecodeSubAuthorities(EncodeSubAuthorities(subs)) == subs
    decreases |subs|
  {
    if |subs| > 0 {
      SubAuthoritiesRoundTrip(subs[1..]);
      var bs := EncodeSubAuthorities(subs);
      assert bs[..4] == LittleEndian(subs[0], 4);
      assert bs[4..] == EncodeSubAuthorities(subs[1..]);
      LittleEndianRoundTrip(subs[0], 4);
    }
  }

  lemma {:induction false} SubAuthoritiesOfBytes(bs: seq<byte>)
    requires |bs| % 4 == 0
    ensures forall i :: 0 <= i < |DecodeSubAuthorities(bs)| ==> DecodeSubAuthorities(bs)[i] < SubAuthorityBound
    ensures EncodeSubAuthorities(DecodeSubAuthorities(bs)) == bs
    decreases |bs|
  {
    if |bs| > 0 {
      SubAuthoritiesOfBytes(bs[4..]);
      LittleEndianOfValue(bs[..4]);
      assert Pow256(4) == SubAuthorityBound;
      var subs := DecodeSubAuthorities(bs);
      assert subs[1..] == DecodeSubAuthorities(bs[4..]);
      assert bs == bs[..4] + bs[4..];
    }
  }

  /** Decoding an encoded packet gives the identifier back. */
  lemma DecodeEncode(sid: Sid)
    requires Valid(sid)
    ensures Decode(Encode(sid)) == Success(sid)
  {
    var bs := Encode(sid);
    assert Pow256(6) == AuthorityBound;
    assert bs[2..8] == BigEndian(sid.authority, 6);
    assert bs[8..] == EncodeSubAuthorities(sid.subAuthorities);
    BigEndianRoundTrip(sid.authority, 6);
    SubAuthoritiesRoundTrip(sid.subAuthorities);
  }

  /** Every accepted packet is the encoding of a valid identifier, so the
      packet form and the identifier are in one-to-one correspondence. */
  lemma EncodeDecode(bs: seq<byte>)
    requires Decode(bs).Success?
    ensures Valid(Decode(bs).value)
    ensures Encode(Decode(bs).value) == bs
  {
    var sid := Decode(bs).value;
    BigEndianOfValue(bs[2..8]);
    assert Pow256(6) == AuthorityBound;
    SubAuthoritiesOfBytes(bs[8..]);
    assert bs == [bs[0], bs[1]] + bs[2..8] + bs[8..];
  }

  // ---------------------------------------------------------------------
  // String form

  function NumeralsOf(ns: seq<nat>): (r: seq<string>)
    ensures |r| == |ns|
    ensures forall i :: 0 <= i < |ns| ==> r[i] == Decimal.Format(ns[i])
  {
    Seqs.Map(Decimal.Format, ns)
  }

  /** `S-<revision>-<authority>-<sub1>-…-<subN>` with canonical decimals. */
  function Format(sid: Sid): string {
    Seqs.Join(["S", Decimal.Format(sid.revision), Decimal.Format(sid.authority)]
      + NumeralsOf(sid.subAuthorities), '-')
  }

  /** `-<n1>-<n2>…`: the sub-authority part of the string form. */
  function DashNumerals(ns: seq<nat>): string {
    if |ns| == 0 then "" else "-" + Decimal.Format(ns[0]) + DashNumerals(ns[1..])
  }

  lemma {:induction false} JoinNumerals(x: string, ns: seq<nat>)
    ensures Seqs.Join([x] + NumeralsOf(ns), '-') == x + DashNumerals(ns)
    decreases |ns|
  {
    if |ns| > 0 {
      var y := Decimal.Format(ns[0]);
      JoinNumerals(y, ns[1..]);
      assert [y] + NumeralsOf(ns[1..]) == NumeralsOf(ns);
      Seqs.JoinCons(x, NumeralsOf(ns), '-');
    }
  }

  /** The string form spelled out field by field. */
  lemma FormatSpelledOut(sid: Sid)
    ensures Format(sid) == "S-" + Decimal.Format(sid.revision) + "-" + Decimal.Format(sid.authority)
      + DashNumerals(sid.subAuthorities)
  {
    var r := Decimal.Format(sid.revision);
    var a := Decimal.Format(sid.authority);
    var n := NumeralsOf(sid.subAuthorities);
    JoinNumerals(a, sid.subAuthorities);
    Seqs.JoinCons(r, [a] + n, '-');
    Seqs.JoinCons("S", [r] + ([a] + n), '-');
    assert ["S", r, a] + n == ["S"] + ([r] + ([a] + n));
    assert "S" + "-" == "S-";
  }

  /** Reads every numeral, or none if one is not canonical. */
  function ParseNumerals(parts: seq<string>): (r: Option<seq<nat>>)
    ensures r.Some? ==> |r.value| == |parts|
    ensures r.Some? ==> forall i :: 0 <= i < |parts| ==>
      Decimal.IsCanonical(parts[i]) && r.value[i] == Decimal.Value(parts[i])
  {
    if |parts| == 0 then Some([])
    else
      var n :- Decimal.Parse(parts[0]);
      var rest :- ParseNumerals(parts[1..]);
      Some([n] + rest)
  }

  /** Reads the string form; a missing `S` prefix, fewer than two numbers,
      a non-canonical numeral or a field too large for its slot is refused. */
  function Parse(s: string): (r: Result<Sid, SidError>)
    ensures r.Success? ==> Valid(r.value)
  {
    var parts := Seqs.Split(s, '-');
    if |parts| < 3 || parts[0] != "S" then Failure(MalformedString)
    else match ParseNumerals(parts[1..])
      case None => Failure(MalformedString)
      case Some(ns) =>
        var sid := Sid(ns[0], ns[1], ns[2..]);
        if Valid(sid) then Success(sid) else Failure(MalformedString)
  }

  lemma {:induction false} ParseNumeralsOfFormat(ns: seq<nat>)
    ensures ParseNumerals(NumeralsOf(ns)) == Some(ns)
    decreases |ns|
  {
    if |ns| > 0 {
      Decimal.ParseFormat(ns[0]);
      ParseNumeralsOfFormat(ns[1..]);
      assert NumeralsOf(ns)[1..] == NumeralsOf(ns[1..]);
      assert ns == [ns[0]] + ns[1..];
    }
  }

  lemma FormatHasNoDash(n: nat)
    ensures '-' !in Decimal.Format(n)
  {
    Decimal.FormatIsCanonical(n);
    var s := Decimal.Format(n);
    forall i | 0 <= i < |s|
      ensures s[i] != '-'
    {
      assert Decimal.IsDigit(s[i]);
    }
  }

  /** Reading the string form of a valid identifier gives it back. */
  lemma ParseFormat(sid: Sid)
    requires Valid(sid)
    ensures Parse(Format(sid)) == Success(sid)
  {
    var ns := [sid.revision, sid.authority] + sid.subAuthorities;
    var parts := ["S"] + NumeralsOf(ns);
    assert parts == ["S", Decimal.Format(sid.revision), Decimal.Format(sid.authority)]
      + NumeralsOf(sid.subAuthorities);
    forall i | 0 <= i < |parts|
      ensures '-' !in parts[i]
    {
      if i > 0 {
        FormatHasNoDash(ns[i - 1]);
      }
    }
    Seqs.SplitJoin(parts, '-');
    assert parts[1..] == NumeralsOf(ns);
    ParseNumeralsOfFormat(ns);
    assert ns[2..] == sid.subAuthorities;
  }

  /** Every accepted string is the canonical form of what it denotes. */
  lemma FormatParse(s: string)
    requires Parse(s).Success?
    ensures Format(Parse(s).value) == s
  {
    var sid := Parse(s).value;
    var parts := Seqs.Split(s, '-');
    var ns := ParseNumerals(parts[1..]).value;
    forall i | 0 < i < |parts|
      ensures parts[i] == Decimal.Format(ns[i - 1])
    {
      assert parts[1..][i - 1] == parts[i];
      Decimal.FormatParse(parts[i]);
    }
    assert ns == [sid.revision, sid.authority] + sid.subAuthorities;
    assert parts == ["S", Decimal.Format(sid.revision), Decimal.Format(sid.authority)]
      + NumeralsOf(sid.subAuthorities);
    Seqs.JoinSplit(s, '-');
  }

  // ---------------------------------------------------------------------
  // The attribute converter (ConvertWindowsSid)

  /** `toLdap`: the string form to the escaped hex of its packet, ready to
      be placed in a search filter. */
  function ToLdap(s: string): (r: Result<string, SidError>)
    ensures r.Success? <==> Parse(s).Success?
    ensures r.Success? ==> |r.value| == 3 * (8 + 4 * |Parse(s).value.subAuthorities|)
  {
    var sid :- Parse(s);
    Success(Escape(Encode(sid)))
  }

  /** `fromLdap`: the raw packet to the string form. */
  function FromLdap(bs: seq<byte>): (r: Result<string, SidError>)
    ensures r.Success? <==> Decode(bs).Success?
  {
    var sid :- Decode(bs);
    Success(Format(sid))
  }

  /** The round trip the source's tests perform: the escaped form of any
      accepted string, turned back into bytes and decoded, is that string. */
  lemma RoundTrip(s: string)
    requires Parse(s).Success?
    ensures Unescape(ToLdap(s).value).Some?
    ensures FromLdap(Unescape(ToLdap(s).value).value) == Success(s)
  {
    var sid := Parse(s).value;
    EscapeRoundTrip(Encode(sid));
    DecodeEncode(sid);
    FormatParse(s);
  }

  /** The other direction: every well-formed packet comes back unchanged
      through `fromLdap` then `toLdap`. */
  lemma RoundTripBinary(bs: seq<byte>)
    requires FromLdap(bs).Success?
    ensures ToLdap(FromLdap(bs).value) == Success(Escape(bs))
  {
    var sid := Decode(bs).value;
    EncodeDecode(bs);
    ParseFormat(sid);
  }
}
