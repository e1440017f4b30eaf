/** The attribute converter that turns a name, GUID, SID, directory object
    or DN into a distinguished name by searching the directory (`toLdap`),
    and a DN back into the value of its leading relative name (`fromLdap`). */
module ValueToDn {
  import opened Wrappers
  import Seqs
  import Dn
  import Sid
  import Guid
  import opened Filter

  /** A criteria value: one value or a list of them. */
  datatype FilterValue = One(value: string) | Many(values: seq<string>)

  /** The per-attribute options: the attribute a plain name is matched
      against, the criteria every match must meet (in the order given),
      whether the criteria are OR-ed instead of AND-ed, and whether
      `fromLdap` shows the whole DN. */
  datatype Options = Options(
    attribute: string,
    criteria: seq<(string, FilterValue)>,
    orFilter: bool,
    displayDn: bool)

  /** What `toLdap` accepts: text, or a directory object that may carry a DN. */
  datatype Value = Text(text: string) | DirectoryObject(dn: Option<string>)

  datatype SearchRequest = SearchRequest(baseDn: string, filter: string, attributes: seq<string>)

  /** The connection as the converter sees it: the configured domain name,
      the base DN of searches, and the directory's answer to a search as the
      DNs of the entries found. */
  datatype Connection = Connection(domainName: string, baseDn: string, search: SearchRequest -> seq<string>)

  /** The source's AttributeConverterException, by cause. */
  datatype ConvertError = NoOptions(attribute: string) | MissingDn | NoMatch | Ambiguous | MalformedDn(cause: Dn.DnError)

  /** A conversion's result together with the searches it issued, in order. */
  datatype Outcome = Outcome(result: Result<string, ConvertError>, searches: seq<SearchRequest>)

  // ---------------------------------------------------------------------
  // Criteria and the resolution filter

  function ValuesOf(fv: FilterValue): seq<string> {
    match fv
    case One(v) => [v]
    case Many(vs) => vs
  }

  function EqTerms(attr: string, vs: seq<string>): (ts: seq<Filter>)
    ensures |ts| == |vs|
    ensures forall i :: 0 <= i < |vs| ==> ts[i] == Eq(attr, vs[i])
  {
    if |vs| == 0 then [] else [Eq(attr, vs[0])] + EqTerms(attr, vs[1..])
  }

  /** One `(attr=value)` term per criteria value, flattened in order. */
  function CriteriaTerms(criteria: seq<(string, FilterValue)>): seq<Filter> {
    if |criteria| == 0 then []
    else EqTerms(criteria[0].0, ValuesOf(criteria[0].1)) + CriteriaTerms(criteria[1..])
  }

  function CriteriaFilter(opts: Options): Filter {
    if opts.orFilter then Or(CriteriaTerms(opts.criteria)) else And(CriteriaTerms(opts.criteria))
  }

  /** How the input was recognised, with the escaped binary form of a GUID
      or SID. */
  datatype Identity = ByGuid(text: string, hex: string) | BySid(text: string, hex: string) | ByName(text: string)

  /** A GUID or SID is matched on its binary attribute or, failing that, on
      `cn`; a plain name on the configured attribute. */
  function IdentityFilter(attribute: string, id: Identity): Filter {
    match id
    case ByGuid(t, h) => Or([Eq("objectGuid", h), Eq("cn", t)])
    case BySid(t, h) => Or([Eq("objectSid", h), Eq("cn", t)])
    case ByName(t) => Eq(attribute, t)
  }

  function ResolutionFilter(opts: Options, id: Identity): Filter {
    And([CriteriaFilter(opts), IdentityFilter(opts.attribute, id)])
  }

  /** Every listed value is held by the entry. */
  predicate AllListed(c: seq<(string, FilterValue)>, e: Entry) {
    forall k, v :: 0 <= k < |c| && v in ValuesOf(c[k].1) ==> Has(e, c[k].0, v)
  }

  /** Some listed value is held by the entry. */
  predicate AnyListed(c: seq<(string, FilterValue)>, e: Entry) {
    exists k, v :: 0 <= k < |c| && v in ValuesOf(c[k].1) && Has(e, c[k].0, v)
  }

  /** The criteria as a condition on an entry, read straight off the options. */
  predicate CriteriaHold(opts: Options, e: Entry) {
    if opts.orFilter then AnyListed(opts.criteria, e) else AllListed(opts.criteria, e)
  }

  predicate IdentityHolds(attribute: string, id: Identity, e: Entry) {
    match id
    case ByGuid(t, h) => Has(e, "objectGuid", h) || Has(e, "cn", t)
    case BySid(t, h) => Has(e, "objectSid", h) || Has(e, "cn", t)
    case ByName(t) => Has(e, attribute, t)
  }

  predicate AllMatch(ts: seq<Filter>, e: Entry) {
    forall i :: 0 <= i < |ts| ==> Matches(ts[i], e)
  }

  predicate AnyMatch(ts: seq<Filter>, e: Entry) {
    exists i :: 0 <= i < |ts| && Matches(ts[i], e)
  }

  lemma MatchConcat(a: seq<Filter>, b: seq<Filter>, e: Entry)
    ensures AllMatch(a + b, e) <==> AllMatch(a, e) && AllMatch(b, e)
    ensures AnyMatch(a + b, e) <==> AnyMatch(a, e) || AnyMatch(b, e)
  {
    if AllMatch(a, e) && AllMatch(b, e) {
      forall i | 0 <= i < |a + b|
        ensures Matches((a + b)[i], e)
      {
        if i >= |a| {
          assert (a + b)[i] == b[i - |a|];
        }
      }
    }
    if AllMatch(a + b, e) {
      forall i | 0 <= i < |a|
        ensures Matches(a[i], e)
      {
        assert (a + b)[i] == a[i];
      }
      forall i | 0 <= i < |b|
        ensures Matches(b[i], e)
      {
        assert (a + b)[|a| + i] == b[i];
      }
    }
    if AnyMatch(a, e) {
      var i :| 0 <= i < |a| && Matches(a[i], e);
      assert (a + b)[i] == a[i];
    }
    if AnyMatch(b, e) {
      var i :| 0 <= i < |b| && Matches(b[i], e);
      assert (a + b)[|a| + i] == b[i];
    }
    if AnyMatch(a + b, e) {
      var i :| 0 <= i < |a + b| && Matches((a + b)[i], e);
      if i >= |a| {
        assert (a + b)[i] == b[i - |a|];
      } else {
        assert (a + b)[i] == a[i];
      }
    }
  }

  lemma EqTermsMatch(attr: string, vs: seq<string>, e: Entry)
    ensures AllMatch(EqTerms(attr, vs), e) <==> forall v :: v in vs ==> Has(e, attr, v)
    ensures AnyMatch(EqTerms(attr, vs), e) <==> exists v :: v in vs && Has(e, attr, v)
  {
    var ts := EqTerms(attr, vs);
    if AllMatch(ts, e) {
      forall v | v in vs
        ensures Has(e, attr, v)
      {
        var i :| 0 <= i < |vs| && vs[i] == v;
        assert Matches(ts[i], e);
      }
    }
    if exists v :: v in vs && Has(e, attr, v) {
      var v :| v in vs && Has(e, attr, v);
      var i :| 0 <= i < |vs| && vs[i] == v;
      assert Matches(ts[i], e);
    }
  }

  lemma {:induction false} CriteriaTermsAll(c: seq<(string, FilterValue)>, e: Entry)
    ensures AllMatch(CriteriaTerms(c), e) <==> AllListed(c, e)
    decreases |c|
  {
    if |c| > 0 {
      CriteriaTermsAll(c[1..], e);
      EqTermsMatch(c[0].0, ValuesOf(c[0].1), e);
      MatchConcat(EqTerms(c[0].0, ValuesOf(c[0].1)), CriteriaTerms(c[1..]), e);
      if AllListed(c[1..], e) && (forall v :: v in ValuesOf(c[0].1) ==> Has(e, c[0].0, v)) {
        forall k, v | 0 <= k < |c| && v in ValuesOf(c[k].1)
          ensures Has(e, c[k].0, v)
        {
          if k > 0 {
            assert c[1..][k - 1] == c[k];
          }
        }
      }
      if AllListed(c, e) {
        forall k, v | 0 <= k < |c[1..]| && v in ValuesOf(c[1..][k].1)
          ensures Has(e, c[1..][k].0, v)
        {
          assert c[1..][k] == c[k + 1];
        }
      }
    }
  }

  lemma {:induction false} CriteriaTermsAny(c: seq<(string, FilterValue)>, e: Entry)
    ensures AnyMatch(CriteriaTerms(c), e) <==> AnyListed(c, e)
    decreases |c|
  {
    if |c| > 0 {
      CriteriaTermsAny(c[1..], e);
      EqTermsMatch(c[0].0, ValuesOf(c[0].1), e);
      MatchConcat(EqTerms(c[0].0, ValuesOf(c[0].1)), CriteriaTerms(c[1..]), e);
      if AnyListed(c[1..], e) {
        var k, v :| 0 <= k < |c[1..]| && v in ValuesOf(c[1..][k].1) && Has(e, c[1..][k].0, v);
        assert c[1..][k] == c[k + 1];
      }
      if AnyListed(c, e) {
        var k, v :| 0 <= k < |c| && v in ValuesOf(c[k].1) && Has(e, c[k].0, v);
        if k > 0 {
          assert c[1..][k - 1] == c[k];
        }
      }
    }
  }

  /** The filter sent to the directory selects exactly the entries that meet
      the criteria (all of them, or any with `or_filter`) and match the
      identity. */
  lemma ResolutionFilterSelects(opts: Options, id: Identity, e: Entry)
    ensures Matches(ResolutionFilter(opts, id), e)
        <==> CriteriaHold(opts, e) && IdentityHolds(opts.attribute, id, e)
  {
    CriteriaTermsAll(opts.criteria, e);
    CriteriaTermsAny(opts.criteria, e);
    var f := ResolutionFilter(opts, id);
    assert Matches(f, e) <==> Matches(CriteriaFilter(opts), e) && Matches(IdentityFilter(opts.attribute, id), e) by {
      assert f.terms[0] == CriteriaFilter(opts);
      assert f.terms[1] == IdentityFilter(opts.attribute, id);
    }
    assert Matches(IdentityFilter(opts.attribute, id), e) <==> IdentityHolds(opts.attribute, id, e) by {
      var g := IdentityFilter(opts.attribute, id);
      if !id.ByName? {
        assert Matches(g, e) <==> Matches(g.terms[0], e) || Matches(g.terms[1], e);
      }
    }
  }

  /** The text of the resolution filter: the criteria and the identity
      term inside one `(&…)`. */
  lemma ResolutionFilterText(opts: Options, id: Identity)
    ensures Render(ResolutionFilter(opts, id))
      == "(&" + Render(CriteriaFilter(opts)) + Render(IdentityFilter(opts.attribute, id)) + ")"
  {
    var c := CriteriaFilter(opts);
    var i := IdentityFilter(opts.attribute, id);
    assert [c, i][1..] == [i];
    assert RenderAll([i]) == Render(i) + RenderAll([]);
  }

  /** The text of a binary-or-name term: `(|(key=hex)(cn=text))`. */
  lemma OrCnText(key: string, hex: string, text: string)
    ensures Render(Or([Eq(key, hex), Eq("cn", text)])) == "(|(" + key + "=" + hex + ")(cn=" + text + "))"
  {
    var ts := [Eq(key, hex), Eq("cn", text)];
    assert ts[1..] == [ts[1]];
    assert RenderAll([ts[1]]) == Render(ts[1]) + RenderAll([]);
    var a := Render(ts[0]);
    var b := Render(ts[1]);
    assert b == "(cn=" + text + ")";
    assert Render(Or(ts)) == "(|" + (a + b) + ")";
  }

  /** The text of the identity term: `(|(objectGuid=hex)(cn=text))`,
      `(|(objectSid=hex)(cn=text))` or `(attribute=text)`. */
  lemma IdentityFilterText(attribute: string, id: Identity)
    ensures id.ByGuid? ==> Render(IdentityFilter(attribute, id)) == "(|(objectGuid=" + id.hex + ")(cn=" + id.text + "))"
    ensures id.BySid? ==> Render(IdentityFilter(attribute, id)) == "(|(objectSid=" + id.hex + ")(cn=" + id.text + "))"
    ensures id.ByName? ==> Render(IdentityFilter(attribute, id)) == "(" + attribute + "=" + id.text + ")"
  {
    match id
    case ByGuid(t, h) =>
      OrCnText("objectGuid", h, t);
      assert "(|(" + "objectGuid" + "=" == "(|(objectGuid=";
    case BySid(t, h) =>
      OrCnText("objectSid", h, t);
      assert "(|(" + "objectSid" + "=" == "(|(objectSid=";
    case ByName(_) =>
  }

  // ---------------------------------------------------------------------
  // Classifying the input

  function LowerChar(c: char): char {
    if 'A' <= c <= 'Z' then (c as int - 'A' as int + 'a' as int) as char else c
  }

  /** ASCII lower case, for the case-insensitive comparisons of names. */
  function Lower(s: string): (r: string)
    ensures |r| == |s|
    ensures forall i :: 0 <= i < |s| ==> r[i] == LowerChar(s[i])
  {
    if |s| == 0 then [] else [LowerChar(s[0])] + Lower(s[1..])
  }

  /** The values of the run of `DC` components at the root end of a DN. */
  function DomainComponents(rdns: seq<Dn.Rdn>): seq<string> {
    if |rdns| == 0 || Lower(rdns[|rdns| - 1].attrType) != "dc" then []
    else DomainComponents(rdns[..|rdns| - 1]) + [rdns[|rdns| - 1].value]
  }

  /** A DN under the connection's domain: its `DC` components, joined with
      dots, are the domain name, ignoring case. */
  predicate InDomain(s: string, domainName: string) {
    match Dn.Parse(s)
    case Failure(_) => false
    case Success(rdns) =>
      var dcs := DomainComponents(rdns);
      |dcs| >= 1 && Lower(Seqs.Join(dcs, '.')) == Lower(domainName)
  }

  /** A GUID-shaped text is a GUID; otherwise a well-formed SID string is a
      SID; anything else is a name. */
  function Classify(s: string): (id: Identity)
    ensures id.text == s
    ensures id.ByGuid? <==> Guid.IsGuidShape(s)
    ensures id.BySid? <==> !Guid.IsGuidShape(s) && Sid.Parse(s).Success?
    // the hex carried is the escaped packet of the GUID or SID converter
    ensures id.ByGuid? ==> id.hex == Guid.ToLdap(s).value
    ensures id.BySid? ==> id.hex == Sid.ToLdap(s).value
  {
    match Guid.ToLdap(s)
    case Some(h) => ByGuid(s, h)
    case None =>
      match Sid.ToLdap(s)
      case Success(h) => BySid(s, h)
      case Failure(_) => ByName(s)
  }

  /** The one entry found, or an error for none or several. */
  function SingleDn(dns: seq<string>): (r: Result<string, ConvertError>)
    ensures r.Success? <==> |dns| == 1
    ensures r.Success? ==> r.value == dns[0]
    ensures |dns| == 0 ==> r == Failure(NoMatch)
  {
    if |dns| == 0 then Failure(NoMatch)
    else if |dns| > 1 then Failure(Ambiguous)
    else Success(dns[0])
  }

  /** The search `toLdap` issues for a text that is not a DN in the domain. */
  function ResolutionSearch(opts: Options, conn: Connection, s: string): SearchRequest {
    SearchRequest(conn.baseDn, Render(ResolutionFilter(opts, Classify(s))), ["dn"])
  }

  // ---------------------------------------------------------------------
  // The converter

  /** `toLdap` for the attribute `attribute`. */
  function ToLdap(options: map<string, Options>, attribute: string, conn: Connection, v: Value): (r: Outcome)
    // no options for the attribute: refused before anything else happens
    ensures attribute !in options ==> r == Outcome(Failure(NoOptions(attribute)), [])
    // a directory object gives its own DN and never searches
    ensures attribute in options && v.DirectoryObject? ==>
      r.searches == [] && r.result == (if v.dn.Some? then Success(v.dn.value) else Failure(MissingDn))
    // at most one search, and none for a DN already in the domain
    ensures |r.searches| <= 1
    ensures v.Text? && attribute in options ==>
      (r.searches == [] <==> InDomain(v.text, conn.domainName))
    ensures v.Text? && r.searches == [] && r.result.Success? ==> r.result.value == v.text
    // a DN already in the domain comes back unchanged
    ensures v.Text? && attribute in options && InDomain(v.text, conn.domainName) ==>
      r == Outcome(Success(v.text), [])
    // a search asks for the `dn` attribute under the base DN, and the result
    // is the single entry found
    ensures r.searches != [] ==>
      && v.Text? && attribute in options
      && r.searches[0] == ResolutionSearch(options[attribute], conn, v.text)
      && r.searches[0].attributes == ["dn"] && r.searches[0].baseDn == conn.baseDn
      && r.result == SingleDn(conn.search(r.searches[0]))
  {
    if attribute !in options then Outcome(Failure(NoOptions(attribute)), [])
    else
      match v
      case DirectoryObject(dn) =>
        Outcome(if dn.Some? then Success(dn.value) else Failure(MissingDn), [])
      case Text(s) =>
        if InDomain(s, conn.domainName) then Outcome(Success(s), [])
        else
          var request := ResolutionSearch(options[attribute], conn, s);
          Outcome(SingleDn(conn.search(request)), [request])
  }

  /** `fromLdap`: the whole DN with `display_dn`, otherwise the unescaped
      value of its leading relative name. */
  function FromLdap(options: map<string, Options>, attribute: string, dn: string): (r: Result<string, ConvertError>)
    ensures attribute !in options ==> r == Failure(NoOptions(attribute))
    ensures attribute in options && options[attribute].displayDn ==> r == Success(dn)
    ensures attribute in options && !options[attribute].displayDn ==>
      (r.Success? <==> Dn.Parse(dn).Success?)
  {
    if attribute !in options then Failure(NoOptions(attribute))
    else if options[attribute].displayDn then Success(dn)
    else
      match Dn.Parse(dn)
      case Failure(e) => Failure(MalformedDn(e))
      case Success(rdns) => Success(rdns[0].value)
  }

  /** `fromLdap` inverts writing a DN: it returns the value of the leading
      relative name, whatever characters had to be escaped in it. */
  lemma FromLdapOfFormat(options: map<string, Options>, attribute: string, rdns: seq<Dn.Rdn>)
    requires attribute in options && !options[attribute].displayDn
    requires |rdns| >= 1 && Dn.WellTyped(rdns)
    ensures FromLdap(options, attribute, Dn.Format(rdns)) == Success(rdns[0].value)
  {
    Dn.ParseFormat(rdns);
  }
}
