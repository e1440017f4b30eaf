/** The source's examples of the DN converter, worked through the model:
    a name, a GUID and a SID resolved by one search, an OR-ed criteria list,
    a DN already in the domain, directory objects with and without a DN,
    a missing options entry, and `fromLdap` with and without `display_dn`. */
module ValueToDnFixtures {
  import opened Wrappers
  import opened Bytes
  import Seqs
  import Dn
  import Sid
  import Guid
  import SidFixtures
  import opened Filter
  import opened ValueToDn

  // The example strings below are written as concatenations of the pieces
  // the formatter and the filter renderer produce, so that the proofs match
  // them piece by piece rather than character by character.

  /** The DN every search of the examples answers with. */
  const FooDn: string := "CN" + "=" + "Foo" + "," + "DC" + "=" + "bar" + "," + "DC" + "=" + "foo"

  /** Options for `foo`: names are matched on `cn`, among `objectClass=bar`. */
  const FooOptions: map<string, Options> := map["foo" := Options("cn", [("objectClass", One("bar"))], false, false)]

  /** A directory that answers exactly one filter with `FooDn`. */
  function Answering(filter: string): (conn: Connection)
    ensures conn.domainName == "example" + ".local"
    ensures forall req :: conn.search(req) == (if req.filter == filter then [FooDn] else [])
  {
    Connection("example" + ".local", "dc=example" + ",dc=local",
      (req: SearchRequest) => if req.filter == filter then [FooDn] else [])
  }

  /** Text without an `=` is no DN, so it never lies in a domain. */
  lemma NotADn(s: string, domain: string)
    requires '=' !in s
    ensures !InDomain(s, domain)
  {
    if Dn.Parse(s).Success? {
      Dn.ParseNeedsEquals(s);
    }
  }

  /** Text with neither a dash nor 36 characters is a plain name. */
  lemma PlainName(s: string)
    requires '-' !in s && |s| != 36
    ensures Classify(s) == ByName(s)
  {
    Seqs.SplitWithoutSeparator(s, '-');
  }

  // ---------------------------------------------------------------------
  // Filters. Each is written in the grouping its rendering produces:
  // `(&`, the criteria, the identity term, `)`.

  const BarCriteria: string := "(&(objectClass=bar))"

  lemma BarCriteriaRendered()
    ensures Render(CriteriaFilter(FooOptions["foo"])) == BarCriteria
  {
    assert CriteriaTerms(FooOptions["foo"].criteria) == [Eq("objectClass", "bar")];
  }

  // ---------------------------------------------------------------------
  // A name

  const NameFilter: string := "(&" + BarCriteria + "(cn=Foo)" + ")"

  lemma NameFilterRendered()
    ensures Render(ResolutionFilter(FooOptions["foo"], ByName("Foo"))) == NameFilter
  {
    BarCriteriaRendered();
    ResolutionFilterText(FooOptions["foo"], ByName("Foo"));
    IdentityFilterText("cn", ByName("Foo"));
  }

  /** A name is resolved by one search for `(&(&(objectClass=bar))(cn=Foo))`
      asking for `dn`, and becomes the DN found. */
  lemma NameToDn()
    ensures ToLdap(FooOptions, "foo", Answering(NameFilter), Text("Foo"))
      == Outcome(Success(FooDn), [SearchRequest("dc=example" + ",dc=local", NameFilter, ["dn"])])
  {
    var conn := Answering(NameFilter);
    NotADn("Foo", conn.domainName);
    PlainName("Foo");
    NameFilterRendered();
  }

  // ---------------------------------------------------------------------
  // A GUID

  const GuidText: string := "a1131cd3" + "-" + "902b" + "-" + "44c6" + "-" + "b49a" + "-" + "1f6a567cda25"
  const GuidBytes: seq<byte> := [0xa1, 0x13, 0x1c, 0xd3] + [0x90, 0x2b] + [0x44, 0xc6] + [0xb4, 0x9a]
    + [0x1f, 0x6a, 0x56, 0x7c, 0xda, 0x25]
  const GuidHex: string := "\\d3\\1c\\13\\a1" + "\\2b\\90" + "\\c6\\44" + "\\b4\\9a" + "\\1f\\6a\\56" + "\\7c\\da\\25"

  lemma GuidFields()
    ensures GuidBytes[..4] == [0xa1, 0x13, 0x1c, 0xd3]
    ensures GuidBytes[4..6] == [0x90, 0x2b]
    ensures GuidBytes[6..8] == [0x44, 0xc6]
    ensures GuidBytes[8..10] == [0xb4, 0x9a]
    ensures GuidBytes[10..] == [0x1f, 0x6a, 0x56, 0x7c, 0xda, 0x25]
  {
  }

  lemma GuidTimeLow() ensures HexString([0xa1, 0x13, 0x1c, 0xd3]) == "a1131cd3" {
  }

  lemma GuidMiddle()
    ensures HexString([0x90, 0x2b]) == "902b"
    ensures HexString([0x44, 0xc6]) == "44c6"
    ensures HexString([0xb4, 0x9a]) == "b49a"
  {
  }

  lemma GuidNode() ensures HexString([0x1f, 0x6a, 0x56, 0x7c, 0xda, 0x25]) == "1f6a567cda25" {
    assert HexString([0x7c, 0xda, 0x25]) == "7cda25";
  }

  lemma GuidFormat()
    ensures Guid.Format(GuidBytes) == GuidText
  {
    GuidFields();
    GuidTimeLow();
    GuidMiddle();
    GuidNode();
  }

  lemma GuidPacket()
    ensures Guid.ToPacket(GuidBytes) == [0xd3, 0x1c, 0x13, 0xa1] + [0x2b, 0x90] + [0xc6, 0x44] + [0xb4, 0x9a]
      + [0x1f, 0x6a, 0x56] + [0x7c, 0xda, 0x25]
  {
  }

  lemma GuidPiecesHead()
    ensures Escape([0xd3, 0x1c, 0x13, 0xa1]) == "\\d3\\1c\\13\\a1"
    ensures Escape([0x2b, 0x90]) == "\\2b\\90"
  {
  }

  lemma GuidPiecesMiddle()
    ensures Escape([0xc6, 0x44]) == "\\c6\\44"
    ensures Escape([0xb4, 0x9a]) == "\\b4\\9a"
  {
  }

  lemma GuidPiecesTail()
    ensures Escape([0x1f, 0x6a, 0x56]) == "\\1f\\6a\\56"
    ensures Escape([0x7c, 0xda, 0x25]) == "\\7c\\da\\25"
  {
  }

  lemma GuidEscape()
    ensures Escape(Guid.ToPacket(GuidBytes)) == GuidHex
  {
    GuidPacket();
    GuidPiecesHead();
    GuidPiecesMiddle();
    GuidPiecesTail();
    var a: seq<byte> := [0xd3, 0x1c, 0x13, 0xa1];
    var b: seq<byte> := [0x2b, 0x90];
    var c: seq<byte> := [0xc6, 0x44];
    var d: seq<byte> := [0xb4, 0x9a];
    var e: seq<byte> := [0x1f, 0x6a, 0x56];
    var f: seq<byte> := [0x7c, 0xda, 0x25];
    EscapeConcat(a + b + c + d + e, f);
    EscapeConcat(a + b + c + d, e);
    EscapeConcat(a + b + c, d);
    EscapeConcat(a + b, c);
    EscapeConcat(a, b);
  }

  /** The GUID of the source's example becomes the escaped packet in which
      the first three fields are byte-swapped. */
  lemma GuidToLdap()
    ensures Guid.ToLdap(GuidText) == Some(GuidHex)
  {
    GuidFormat();
    Guid.ParseFormat(GuidBytes);
    GuidEscape();
  }

  const GuidFilter: string := "(&" + BarCriteria + ("(|(objectGuid=" + GuidHex + ")(cn=" + GuidText + "))") + ")"

  lemma GuidFilterRendered()
    ensures Classify(GuidText) == ByGuid(GuidText, GuidHex)
    ensures Render(ResolutionFilter(FooOptions["foo"], ByGuid(GuidText, GuidHex))) == GuidFilter
  {
    GuidToLdap();
    BarCriteriaRendered();
    ResolutionFilterText(FooOptions["foo"], ByGuid(GuidText, GuidHex));
    IdentityFilterText("cn", ByGuid(GuidText, GuidHex));
  }

  /** A GUID is looked up on `objectGuid` by its escaped packet, or on `cn`. */
  lemma GuidToDn()
    ensures ToLdap(FooOptions, "foo", Answering(GuidFilter), Text(GuidText))
      == Outcome(Success(FooDn), [SearchRequest("dc=example" + ",dc=local", GuidFilter, ["dn"])])
  {
    NotADn(GuidText, "example" + ".local");
    GuidFilterRendered();
  }

  // ---------------------------------------------------------------------
  // A SID

  const SidFilter: string := "(&" + BarCriteria
    + ("(|(objectSid=" + SidFixtures.DomainAdminsHex + ")(cn=" + SidFixtures.DomainAdminsString + "))") + ")"

  lemma DomainAdminsIsNoGuid()
    ensures !Guid.IsGuidShape(SidFixtures.DomainAdminsString)
  {
    assert |SidFixtures.DomainAdminsString| == 44;
  }

  lemma SidClassified()
    ensures Classify(SidFixtures.DomainAdminsString) == BySid(SidFixtures.DomainAdminsString, SidFixtures.DomainAdminsHex)
  {
    SidFixtures.DomainAdminsToLdap();
    DomainAdminsIsNoGuid();
  }

  lemma SidFilterRendered()
    ensures Render(ResolutionFilter(FooOptions["foo"], Classify(SidFixtures.DomainAdminsString))) == SidFilter
  {
    var id := BySid(SidFixtures.DomainAdminsString, SidFixtures.DomainAdminsHex);
    SidClassified();
    BarCriteriaRendered();
    ResolutionFilterText(FooOptions["foo"], id);
    IdentityFilterText("cn", id);
  }

  /** A SID is looked up on `objectSid` by its escaped binary form, or on `cn`. */
  lemma SidToDn()
    ensures ToLdap(FooOptions, "foo", Answering(SidFilter), Text(SidFixtures.DomainAdminsString))
      == Outcome(Success(FooDn), [SearchRequest("dc=example" + ",dc=local", SidFilter, ["dn"])])
  {
    NotADn(SidFixtures.DomainAdminsString, "example" + ".local");
    SidFilterRendered();
  }

  // ---------------------------------------------------------------------
  // OR-ed criteria

  const OrOptions: map<string, Options> :=
    map["foo" := Options("cn", [("objectClass", Many(["bar", "foo"]))], true, false)]

  const OrCriteria: string := "(|" + ("(objectClass=bar)" + "(objectClass=foo)") + ")"
  const OrFilter: string := "(&" + OrCriteria + "(cn=Foo)" + ")"

  /** Two terms render side by side. */
  lemma RenderTwo(a: Filter, b: Filter)
    ensures RenderAll([a, b]) == Render(a) + Render(b)
  {
    assert [a, b][1..] == [b];
    assert [b][1..] == [];
    assert RenderAll([b]) == Render(b) + "";
    assert Render(b) + "" == Render(b);
  }

  lemma OrCriteriaRendered()
    ensures Render(CriteriaFilter(OrOptions["foo"])) == OrCriteria
  {
    var ts := [Eq("objectClass", "bar"), Eq("objectClass", "foo")];
    assert EqTerms("objectClass", ["bar", "foo"]) == ts;
    assert CriteriaTerms(OrOptions["foo"].criteria) == ts;
    RenderTwo(ts[0], ts[1]);
    assert Render(ts[0]) == "(objectClass=bar)";
    assert Render(ts[1]) == "(objectClass=foo)";
  }

  lemma OrFilterRendered()
    ensures Render(ResolutionFilter(OrOptions["foo"], ByName("Foo"))) == OrFilter
  {
    OrCriteriaRendered();
    ResolutionFilterText(OrOptions["foo"], ByName("Foo"));
    IdentityFilterText("cn", ByName("Foo"));
  }

  /** With `or_filter` the listed values of one attribute are alternatives. */
  lemma OrFilterToDn()
    ensures ToLdap(OrOptions, "foo", Answering(OrFilter), Text("Foo"))
      == Outcome(Success(FooDn), [SearchRequest("dc=example" + ",dc=local", OrFilter, ["dn"])])
  {
    NotADn("Foo", "example" + ".local");
    PlainName("Foo");
    OrFilterRendered();
  }

  // ---------------------------------------------------------------------
  // DNs and directory objects

  /** A three-part DN is its parts' texts joined by commas. */
  lemma ThreeRdns(a: Dn.Rdn, b: Dn.Rdn, c: Dn.Rdn)
    ensures Dn.Format([a, b, c]) == Dn.Format([a]) + "," + Dn.Format([b]) + "," + Dn.Format([c])
  {
    Dn.FormatCons(b, [c]);
    Dn.FormatCons(a, [b, c]);
    assert [a] + [b, c] == [a, b, c];
    assert [b] + [c] == [b, c];
  }

  /** One relative name whose value needs no escaping. */
  lemma PlainRdn(t: string, v: string)
    requires Dn.IsAttrType(v)
    ensures Dn.Format([Dn.Rdn(t, v)]) == t + "=" + v
  {
    Dn.FormatCons(Dn.Rdn(t, v), []);
    Dn.EscapeValuePlain(v);
  }

  /** The names used in the examples have no special characters. */
  lemma AttrTypes()
    ensures Dn.IsAttrType("CN") && Dn.IsAttrType("DC") && Dn.IsAttrType("cn") && Dn.IsAttrType("dc")
    ensures Dn.IsAttrType("Foo") && Dn.IsAttrType("bar") && Dn.IsAttrType("foo")
  {
  }

  /** Three relative names of which the last two need no escaping. */
  lemma TailRdns(a: Dn.Rdn, b: Dn.Rdn, c: Dn.Rdn)
    requires Dn.IsAttrType(b.value) && Dn.IsAttrType(c.value)
    ensures Dn.Format([a, b, c])
      == Dn.Format([a]) + "," + b.attrType + "=" + b.value + "," + c.attrType + "=" + c.value
  {
    ThreeRdns(a, b, c);
    PlainRdn(b.attrType, b.value);
    PlainRdn(c.attrType, c.value);
  }

  /** Three relative names none of which needs escaping. */
  lemma PlainRdns(a: Dn.Rdn, b: Dn.Rdn, c: Dn.Rdn)
    requires Dn.IsAttrType(a.value) && Dn.IsAttrType(b.value) && Dn.IsAttrType(c.value)
    ensures Dn.Format([a, b, c])
      == a.attrType + "=" + a.value + "," + b.attrType + "=" + b.value + "," + c.attrType + "=" + c.value
  {
    TailRdns(a, b, c);
    PlainRdn(a.attrType, a.value);
  }

  const FooRdns: seq<Dn.Rdn> := [Dn.Rdn("CN", "Foo"), Dn.Rdn("DC", "bar"), Dn.Rdn("DC", "foo")]

  lemma FooRdnsWellTyped()
    ensures Dn.WellTyped(FooRdns)
  {
    AttrTypes();
  }

  lemma FooDnParses()
    ensures Dn.Parse(FooDn) == Success(FooRdns)
  {
    AttrTypes();
    PlainRdns(Dn.Rdn("CN", "Foo"), Dn.Rdn("DC", "bar"), Dn.Rdn("DC", "foo"));
    FooRdnsWellTyped();
    Dn.ParseFormat(FooRdns);
  }

  /** A DN whose `DC` components spell the domain is passed through, and the
      directory is not asked. */
  lemma DnInDomainPassesThrough(search: SearchRequest -> seq<string>)
    ensures ToLdap(FooOptions, "foo", Connection("bar.foo", "dc=bar,dc=foo", search), Text(FooDn))
      == Outcome(Success(FooDn), [])
  {
    FooDnParses();
    assert FooRdns[..2] == [Dn.Rdn("CN", "Foo"), Dn.Rdn("DC", "bar")];
    assert FooRdns[..1] == [Dn.Rdn("CN", "Foo")];
    assert Lower("DC") == "dc";
    assert Lower("CN") == "cn";
    assert DomainComponents(FooRdns) == ["bar", "foo"];
    assert Seqs.Join(["bar", "foo"], '.') == "bar.foo";
    assert InDomain(FooDn, "bar.foo");
  }

  /** A directory object gives its own DN without a search. */
  lemma DirectoryObjectToDn(conn: Connection)
    ensures ToLdap(FooOptions, "foo", conn, DirectoryObject(Some("CN=Chad,OU=Employees,DC=example,DC=com")))
      == Outcome(Success("CN=Chad,OU=Employees,DC=example,DC=com"), [])
  {
  }

  /** A directory object without a DN is an error. */
  lemma DirectoryObjectWithoutDn(conn: Connection)
    ensures ToLdap(FooOptions, "foo", conn, DirectoryObject(None)) == Outcome(Failure(MissingDn), [])
  {
  }

  /** An attribute without options is refused. */
  lemma NoOptionsRefused(conn: Connection)
    ensures ToLdap(map[], "foo", conn, Text("foo")).result == Failure(NoOptions("foo"))
  {
  }

  // ---------------------------------------------------------------------
  // fromLdap

  const FromOptions: map<string, Options> := map["foo" := Options("foo", [("objectClass", One("bar"))], false, false)]
  const DisplayOptions: map<string, Options> := map["foo" := Options("foo", [("objectClass", One("bar"))], false, true)]

  const LowerDn: string := "cn" + "=" + "Foo" + "," + "dc" + "=" + "bar" + "," + "dc" + "=" + "foo"

  /** The leading name of `cn=Foo,dc=bar,dc=foo` is `Foo`. */
  lemma DnToName()
    ensures FromLdap(FromOptions, "foo", LowerDn) == Success("Foo")
  {
    AttrTypes();
    PlainRdns(Dn.Rdn("cn", "Foo"), Dn.Rdn("dc", "bar"), Dn.Rdn("dc", "foo"));
    FromLdapOfFormat(FromOptions, "foo", [Dn.Rdn("cn", "Foo"), Dn.Rdn("dc", "bar"), Dn.Rdn("dc", "foo")]);
  }

  /** `cn=Foo\,\=bar,dc=foo,dc=bar`, in pieces: the value `Foo,=bar` has
      its comma and equals sign escaped. */
  const EscapedDn: string := "cn" + "=" + ("Foo" + "\\,\\=" + "bar") + "," + "dc" + "=" + "foo" + "," + "dc" + "=" + "bar"
  const CommaEquals: string := "Foo" + ",=" + "bar"

  lemma EscapedValue()
    ensures Dn.EscapeValue(CommaEquals) == "Foo" + "\\,\\=" + "bar"
  {
    Dn.EscapeValueConcat("Foo" + ",=", "bar");
    Dn.EscapeValueConcat("Foo", ",=");
    AttrTypes();
    Dn.EscapeValuePlain("Foo");
    Dn.EscapeValuePlain("bar");
    assert Dn.EscapeValue(",=") == "\\,\\=";
  }

  lemma EscapedRdnText(t: string)
    ensures Dn.Format([Dn.Rdn(t, CommaEquals)]) == t + "=" + ("Foo" + "\\,\\=" + "bar")
  {
    Dn.FormatCons(Dn.Rdn(t, CommaEquals), []);
    EscapedValue();
  }

  /** Escaped special characters in the leading name come back unescaped:
      `cn=Foo\,\=bar,dc=foo,dc=bar` gives `Foo,=bar`. */
  lemma EscapedDnToName()
    ensures FromLdap(FromOptions, "foo", EscapedDn) == Success(CommaEquals)
  {
    var rdns := [Dn.Rdn("cn", CommaEquals), Dn.Rdn("dc", "foo"), Dn.Rdn("dc", "bar")];
    AttrTypes();
    TailRdns(rdns[0], rdns[1], rdns[2]);
    EscapedRdnText("cn");
    FromLdapOfFormat(FromOptions, "foo", rdns);
  }

  /** With `display_dn` the DN is shown whole. */
  lemma DisplayDn()
    ensures FromLdap(DisplayOptions, "foo", LowerDn) == Success(LowerDn)
  {
  }
}
