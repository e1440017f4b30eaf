/** The identifiers of the source's tests, worked through the model: the
    domain-relative Domain Admins group, the builtin Administrators group
    and the well-known "nobody" identifier. */
module SidFixtures {
  import opened Wrappers
  import opened Bytes
  import Decimal
  import Sid

  // The fixtures are written one field per literal: revision and count,
  // authority, then one sub-authority per piece.

  const DomainAdminsString: string := "S-1-5" + "-21" + "-1004336348" + "-1177238915" + "-682003330" + "-512"
  const DomainAdminsHex: string := "\\01\\05" + "\\00\\00\\00\\00\\00\\05" + "\\15\\00\\00\\00"
    + "\\dc\\f4\\dc\\3b" + "\\83\\3d\\2b\\46" + "\\82\\8b\\a6\\28" + "\\00\\02\\00\\00"
  const DomainAdmins: Sid.Sid := Sid.Sid(1, 5, [21, 1004336348, 1177238915, 682003330, 512])

  const BuiltinAdministratorsString: string := "S-1-5" + "-32" + "-544"
  const BuiltinAdministratorsHex: string := "\\01\\02" + "\\00\\00\\00\\00\\00\\05" + "\\20\\00\\00\\00" + "\\20\\02\\00\\00"
  const BuiltinAdministrators: Sid.Sid := Sid.Sid(1, 5, [32, 544])

  const NobodyString: string := "S-1-0" + "-0"
  const NobodyHex: string := "\\01\\01" + "\\00\\00\\00\\00\\00\\00" + "\\00\\00\\00\\00"
  const Nobody: Sid.Sid := Sid.Sid(1, 0, [0])

  // ---------------------------------------------------------------------
  // Domain Admins

  lemma Numeral1004336348() ensures Decimal.Format(1004336348) == "1004336348" {
    assert Decimal.Format(10) == "10";
    assert Decimal.Format(100) == "100";
    assert Decimal.Format(1004) == "1004";
    assert Decimal.Format(10043) == "10043";
    assert Decimal.Format(100433) == "100433";
    assert Decimal.Format(1004336) == "1004336";
    assert Decimal.Format(10043363) == "10043363";
    assert Decimal.Format(100433634) == "100433634";
  }

  lemma Numeral1177238915() ensures Decimal.Format(1177238915) == "1177238915" {
    assert Decimal.Format(11) == "11";
    assert Decimal.Format(117) == "117";
    assert Decimal.Format(1177) == "1177";
    assert Decimal.Format(11772) == "11772";
    assert Decimal.Format(117723) == "117723";
    assert Decimal.Format(1177238) == "1177238";
    assert Decimal.Format(11772389) == "11772389";
    assert Decimal.Format(117723891) == "117723891";
  }

  lemma Numeral682003330() ensures Decimal.Format(682003330) == "682003330" {
    assert Decimal.Format(68) == "68";
    assert Decimal.Format(682) == "682";
    assert Decimal.Format(6820) == "6820";
    assert Decimal.Format(68200) == "68200";
    assert Decimal.Format(682003) == "682003";
    assert Decimal.Format(6820033) == "6820033";
    assert Decimal.Format(68200333) == "68200333";
  }

  lemma DashNumeralsTail()
    ensures Sid.DashNumerals([682003330, 512]) == "-682003330" + "-512"
  {
    Numeral682003330();
    assert Sid.DashNumerals([512]) == "-512";
    assert [682003330, 512][1..] == [512];
  }

  lemma DashNumeralsMiddle()
    ensures Sid.DashNumerals([1177238915, 682003330, 512]) == "-1177238915" + ("-682003330" + "-512")
  {
    Numeral1177238915();
    DashNumeralsTail();
    assert [1177238915, 682003330, 512][1..] == [682003330, 512];
  }

  lemma DashNumeralsHead()
    ensures Sid.DashNumerals([1004336348, 1177238915, 682003330, 512])
      == "-1004336348" + ("-1177238915" + ("-682003330" + "-512"))
  {
    Numeral1004336348();
    DashNumeralsMiddle();
    assert [1004336348, 1177238915, 682003330, 512][1..] == [1177238915, 682003330, 512];
  }

  lemma DomainAdminsDashNumerals()
    ensures Sid.DashNumerals(DomainAdmins.subAuthorities)
      == "-21" + ("-1004336348" + ("-1177238915" + ("-682003330" + "-512")))
  {
    DashNumeralsHead();
    assert DomainAdmins.subAuthorities[1..] == [1004336348, 1177238915, 682003330, 512];
  }

  lemma DomainAdminsFormat()
    ensures Sid.Format(DomainAdmins) == DomainAdminsString
  {
    DomainAdminsDashNumerals();
    Sid.FormatSpelledOut(DomainAdmins);
  }

  lemma DomainAdminsLittleEndian()
    ensures LittleEndian(1004336348, 4) == [0xdc, 0xf4, 0xdc, 0x3b]
    ensures LittleEndian(1177238915, 4) == [0x83, 0x3d, 0x2b, 0x46]
  {
  }

  lemma DomainAdminsLittleEndianTail()
    ensures LittleEndian(682003330, 4) == [0x82, 0x8b, 0xa6, 0x28]
    ensures LittleEndian(512, 4) == [0x00, 0x02, 0, 0]
    ensures LittleEndian(21, 4) == [0x15, 0, 0, 0]
  {
  }

  lemma DomainAdminsSubAuthorities()
    ensures Sid.EncodeSubAuthorities(DomainAdmins.subAuthorities)
      == [0x15, 0, 0, 0] + ([0xdc, 0xf4, 0xdc, 0x3b] + ([0x83, 0x3d, 0x2b, 0x46] + ([0x82, 0x8b, 0xa6, 0x28] + [0x00, 0x02, 0, 0])))
  {
    DomainAdminsLittleEndian();
    DomainAdminsLittleEndianTail();
    var subs := DomainAdmins.subAuthorities;
    assert Sid.EncodeSubAuthorities(subs[4..]) == [0x00, 0x02, 0, 0];
  }

  lemma AuthorityFive()
    ensures BigEndian(5, 6) == [0, 0, 0, 0, 0, 0x05]
  {
  }

  lemma DomainAdminsEncode()
    ensures Sid.Valid(DomainAdmins)
    ensures Sid.Encode(DomainAdmins) == [0x01, 0x05] + [0, 0, 0, 0, 0, 0x05] + [0x15, 0, 0, 0]
      + [0xdc, 0xf4, 0xdc, 0x3b] + [0x83, 0x3d, 0x2b, 0x46] + [0x82, 0x8b, 0xa6, 0x28] + [0x00, 0x02, 0, 0]
  {
    DomainAdminsSubAuthorities();
    AuthorityFive();
  }

  lemma DomainAdminsEscapeHead()
    ensures Escape([0x01, 0x05]) == "\\01\\05"
    ensures Escape([0, 0, 0, 0, 0, 0x05]) == "\\00\\00\\00\\00\\00\\05"
    ensures Escape([0x15, 0, 0, 0]) == "\\15\\00\\00\\00"
  {
  }

  lemma DomainAdminsEscapeMiddle()
    ensures Escape([0xdc, 0xf4, 0xdc, 0x3b]) == "\\dc\\f4\\dc\\3b"
    ensures Escape([0x83, 0x3d, 0x2b, 0x46]) == "\\83\\3d\\2b\\46"
  {
  }

  lemma DomainAdminsEscapeTail()
    ensures Escape([0x82, 0x8b, 0xa6, 0x28]) == "\\82\\8b\\a6\\28"
    ensures Escape([0x00, 0x02, 0, 0]) == "\\00\\02\\00\\00"
  {
  }

  lemma DomainAdminsEscape()
    ensures Sid.Valid(DomainAdmins)
    ensures Escape(Sid.Encode(DomainAdmins)) == DomainAdminsHex
  {
    DomainAdminsEncode();
    DomainAdminsEscapeHead();
    DomainAdminsEscapeMiddle();
    DomainAdminsEscapeTail();
    var a: seq<byte> := [0x01, 0x05];
    var b: seq<byte> := [0, 0, 0, 0, 0, 0x05];
    var c: seq<byte> := [0x15, 0, 0, 0];
    var d: seq<byte> := [0xdc, 0xf4, 0xdc, 0x3b];
    var e: seq<byte> := [0x83, 0x3d, 0x2b, 0x46];
    var f: seq<byte> := [0x82, 0x8b, 0xa6, 0x28];
    var g: seq<byte> := [0x00, 0x02, 0, 0];
    EscapeConcat(a + b + c + d + e + f, g);
    EscapeConcat(a + b + c + d + e, f);
    EscapeConcat(a + b + c + d, e);
    EscapeConcat(a + b + c, d);
    EscapeConcat(a + b, c);
    EscapeConcat(a, b);
  }

  /** `toLdap` on the Domain Admins identifier gives the escaped packet of
      the source's test. */
  lemma DomainAdminsToLdap()
    ensures Sid.ToLdap(DomainAdminsString) == Success(DomainAdminsHex)
  {
    DomainAdminsFormat();
    DomainAdminsEscape();
    Sid.ParseFormat(DomainAdmins);
  }

  /** `fromLdap` on the bytes behind that escaped packet gives the string back. */
  lemma DomainAdminsFromLdap()
    ensures Unescape(DomainAdminsHex).Some?
    ensures Sid.FromLdap(Unescape(DomainAdminsHex).value) == Success(DomainAdminsString)
  {
    DomainAdminsToLdap();
    Sid.RoundTrip(DomainAdminsString);
  }

  // ---------------------------------------------------------------------
  // Builtin Administrators

  lemma BuiltinAdministratorsFormat()
    ensures Sid.Format(BuiltinAdministrators) == BuiltinAdministratorsString
  {
    var subs := BuiltinAdministrators.subAuthorities;
    assert Sid.DashNumerals(subs[1..]) == "-544";
    assert Sid.DashNumerals(subs) == "-32" + "-544";
    Sid.FormatSpelledOut(BuiltinAdministrators);
  }

  lemma BuiltinAdministratorsEncode()
    ensures Sid.Valid(BuiltinAdministrators)
    ensures Sid.Encode(BuiltinAdministrators) == [0x01, 0x02] + [0, 0, 0, 0, 0, 0x05] + [0x20, 0, 0, 0] + [0x20, 0x02, 0, 0]
  {
    assert LittleEndian(32, 4) == [0x20, 0, 0, 0];
    assert LittleEndian(544, 4) == [0x20, 0x02, 0, 0];
    assert BigEndian(5, 6) == [0, 0, 0, 0, 0, 0x05];
    assert Sid.EncodeSubAuthorities(BuiltinAdministrators.subAuthorities[1..]) == [0x20, 0x02, 0, 0];
  }

  lemma BuiltinAdministratorsPieces()
    ensures Escape([0x01, 0x02]) == "\\01\\02"
    ensures Escape([0, 0, 0, 0, 0, 0x05]) == "\\00\\00\\00\\00\\00\\05"
    ensures Escape([0x20, 0, 0, 0]) == "\\20\\00\\00\\00"
    ensures Escape([0x20, 0x02, 0, 0]) == "\\20\\02\\00\\00"
  {
  }

  lemma BuiltinAdministratorsEscape()
    ensures Sid.Valid(BuiltinAdministrators)
    ensures Escape(Sid.Encode(BuiltinAdministrators)) == BuiltinAdministratorsHex
  {
    BuiltinAdministratorsEncode();
    BuiltinAdministratorsPieces();
    var a: seq<byte> := [0x01, 0x02];
    var b: seq<byte> := [0, 0, 0, 0, 0, 0x05];
    var c: seq<byte> := [0x20, 0, 0, 0];
    var d: seq<byte> := [0x20, 0x02, 0, 0];
    EscapeConcat(a + b + c, d);
    EscapeConcat(a + b, c);
    EscapeConcat(a, b);
  }

  /** Well-known identifiers follow the same layout: builtin Administrators. */
  lemma BuiltinAdministratorsToLdap()
    ensures Sid.ToLdap(BuiltinAdministratorsString) == Success(BuiltinAdministratorsHex)
  {
    BuiltinAdministratorsFormat();
    BuiltinAdministratorsEscape();
    Sid.ParseFormat(BuiltinAdministrators);
  }

  lemma BuiltinAdministratorsFromLdap()
    ensures Unescape(BuiltinAdministratorsHex).Some?
    ensures Sid.FromLdap(Unescape(BuiltinAdministratorsHex).value) == Success(BuiltinAdministratorsString)
  {
    BuiltinAdministratorsToLdap();
    Sid.RoundTrip(BuiltinAdministratorsString);
  }

  // ---------------------------------------------------------------------
  // Nobody

  lemma NobodyFormat()
    ensures Sid.Format(Nobody) == NobodyString
  {
    assert Sid.DashNumerals(Nobody.subAuthorities) == "-0";
    Sid.FormatSpelledOut(Nobody);
  }

  lemma NobodyEncode()
    ensures Sid.Valid(Nobody)
    ensures Sid.Encode(Nobody) == [0x01, 0x01] + [0, 0, 0, 0, 0, 0] + [0, 0, 0, 0]
  {
    assert LittleEndian(0, 4) == [0, 0, 0, 0];
    assert BigEndian(0, 6) == [0, 0, 0, 0, 0, 0];
  }

  lemma NobodyPieces()
    ensures Escape([0x01, 0x01]) == "\\01\\01"
    ensures Escape([0, 0, 0, 0, 0, 0]) == "\\00\\00\\00\\00\\00\\00"
    ensures Escape([0, 0, 0, 0]) == "\\00\\00\\00\\00"
  {
  }

  lemma NobodyEscape()
    ensures Sid.Valid(Nobody)
    ensures Escape(Sid.Encode(Nobody)) == NobodyHex
  {
    NobodyEncode();
    NobodyPieces();
    var a: seq<byte> := [0x01, 0x01];
    var b: seq<byte> := [0, 0, 0, 0, 0, 0];
    var c: seq<byte> := [0, 0, 0, 0];
    EscapeConcat(a + b, c);
    EscapeConcat(a, b);
  }

  /** Well-known identifiers follow the same layout: "nobody". */
  lemma NobodyToLdap()
    ensures Sid.ToLdap(NobodyString) == Success(NobodyHex)
  {
    NobodyFormat();
    NobodyEscape();
    Sid.ParseFormat(Nobody);
  }

  lemma NobodyFromLdap()
    ensures Unescape(NobodyHex).Some?
    ensures Sid.FromLdap(Unescape(NobodyHex).value) == Success(NobodyString)
  {
    NobodyToLdap();
    Sid.RoundTrip(NobodyString);
  }
}
