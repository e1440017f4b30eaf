/** Distinguished names in the string form of section 3 of RFC 4514:
    relative names separated by `,`, each `type=value`, where a backslash
    makes the next character part of the value. */
module Dn {
  import opened Wrappers
  import Seqs

  /** A character of a DN after escapes are resolved: `Escaped` marks one
      that followed a backslash and so never acts as a delimiter. */
  datatype Token = Plain(c: char) | Escaped(c: char)

  datatype Rdn = Rdn(attrType: string, value: string)

  datatype DnError = DanglingEscape | MissingEquals

  /** Resolves backslash escapes; a backslash at the very end is an error. */
  function Lex(s: string): (r: Result<seq<Token>, DnError>)
    decreases |s|
  {
    if |s| == 0 then Success([])
    else if s[0] == '\\' then
      if |s| == 1 then Failure(DanglingEscape)
      else
        var rest :- Lex(s[2..]);
        Success([Escaped(s[1])] + rest)
    else
      var rest :- Lex(s[1..]);
      Success([Plain(s[0])] + rest)
  }

  function Render(ts: seq<Token>): string {
    if |ts| == 0 then []
    else (match ts[0] case Plain(c) => [c] case Escaped(c) => ['\\', c]) + Render(ts[1..])
  }

  /** No plain token is a backslash: what the lexer can produce. */
  predicate Lexable(ts: seq<Token>) {
    forall i :: 0 <= i < |ts| ==> ts[i] != Plain('\\')
  }

  /** Lexing the text of a token sequence gives the tokens back. */
  lemma {:induction false} LexRender(ts: seq<Token>)
    requires Lexable(ts)
    ensures Lex(Render(ts)) == Success(ts)
    decreases |ts|
  {
    if |ts| > 0 {
      LexRender(ts[1..]);
      var s := Render(ts);
      match ts[0]
      case Plain(c) =>
        assert c != '\\';
        assert s == [c] + Render(ts[1..]);
        assert s[0] == c;
        assert s[1..] == Render(ts[1..]);
        assert ts == [ts[0]] + ts[1..];
      case Escaped(c) =>
        assert s == ['\\', c] + Render(ts[1..]);
        assert s[2..] == Render(ts[1..]);
        assert ts == [ts[0]] + ts[1..];
    }
  }

  function Chars(ts: seq<Token>): (s: string)
    ensures |s| == |ts|
    ensures forall i :: 0 <= i < |ts| ==> s[i] == ts[i].c
  {
    if |ts| == 0 then [] else [ts[0].c] + Chars(ts[1..])
  }

  /** Index of the first token equal to `t`, or `|ts|`. */
  function IndexOf(ts: seq<Token>, t: Token): (k: nat)
    ensures k <= |ts|
    ensures forall i :: 0 <= i < k ==> ts[i] != t
    ensures k < |ts| ==> ts[k] == t
  {
    if |ts| == 0 then 0 else if ts[0] == t then 0 else 1 + IndexOf(ts[1..], t)
  }

  /** One relative name: the type is what precedes the first unescaped `=`,
      the value is everything after it, escapes resolved. */
  function ParseRdn(ts: seq<Token>): (r: Result<Rdn, DnError>)
    ensures r.Success? <==> Plain('=') in ts
  {
    var k := IndexOf(ts, Plain('='));
    if k == |ts| then Failure(MissingEquals)
    else Success(Rdn(Chars(ts[..k]), Chars(ts[k + 1..])))
  }

  function ParseRdns(groups: seq<seq<Token>>): (r: Result<seq<Rdn>, DnError>)
    ensures r.Success? ==> |r.value| == |groups|
  {
    if |groups| == 0 then Success([])
    else
      var first :- ParseRdn(groups[0]);
      var rest :- ParseRdns(groups[1..]);
      Success([first] + rest)
  }

  /** Reads a DN into its relative names, leaf first. */
  function Parse(s: string): (r: Result<seq<Rdn>, DnError>)
    ensures r.Success? ==> |r.value| >= 1
  {
    var ts :- Lex(s);
    ParseRdns(Seqs.Split(ts, Plain(',')))
  }

  /** Lexing loses nothing: every text that lexes is the text of its
      tokens, so the tokens determine the DN text exactly. */
  lemma {:induction false} RenderLex(s: string)
    requires Lex(s).Success?
    ensures Render(Lex(s).value) == s
    ensures Lexable(Lex(s).value)
    decreases |s|
  {
    if |s| == 0 {
    } else if s[0] == '\\' {
      RenderLex(s[2..]);
      var ts := Lex(s).value;
      assert ts == [Escaped(s[1])] + Lex(s[2..]).value;
      assert ts[1..] == Lex(s[2..]).value;
      assert s == ['\\', s[1]] + s[2..];
    } else {
      RenderLex(s[1..]);
      var ts := Lex(s).value;
      assert ts == [Plain(s[0])] + Lex(s[1..]).value;
      assert ts[1..] == Lex(s[1..]).value;
      assert s == [s[0]] + s[1..];
    }
  }

  lemma {:induction false} LexPlain(s: string, c: char)
    requires Lex(s).Success? && Plain(c) in Lex(s).value
    ensures c in s
    decreases |s|
  {
    if s[0] == '\\' {
      LexPlain(s[2..], c);
    } else if s[0] != c {
      LexPlain(s[1..], c);
    }
  }

  /** Only text with an `=` in it reads as a DN. */
  lemma ParseNeedsEquals(s: string)
    requires Parse(s).Success?
    ensures '=' in s
  {
    var ts := Lex(s).value;
    var groups := Seqs.Split(ts, Plain(','));
    assert ParseRdn(groups[0]).Success?;
    Seqs.SplitElements(ts, Plain(','), 0, Plain('='));
    LexPlain(s, '=');
  }

  // ---------------------------------------------------------------------
  // Writing DNs

  /** The characters a value escapes: the delimiters and the escape itself. */
  predicate IsSpecial(c: char) {
    c == ',' || c == '=' || c == '+' || c == '\\' || c == '"' || c == '<' || c == '>' || c == ';' || c == '#'
  }

  function EscapeTokens(v: string): (ts: seq<Token>)
    ensures |ts| == |v|
    ensures forall i :: 0 <= i < |v| ==> ts[i] == (if IsSpecial(v[i]) then Escaped(v[i]) else Plain(v[i]))
  {
    if |v| == 0 then [] else [if IsSpecial(v[0]) then Escaped(v[0]) else Plain(v[0])] + EscapeTokens(v[1..])
  }

  /** A value with every special character backslash-escaped. */
  function EscapeValue(v: string): string {
    Render(EscapeTokens(v))
  }

  /** Attribute types are plain names with no delimiter in them. */
  predicate IsAttrType(t: string) {
    forall i :: 0 <= i < |t| ==> !IsSpecial(t[i])
  }

  function PlainTokens(t: string): (ts: seq<Token>)
    ensures |ts| == |t|
    ensures forall i :: 0 <= i < |t| ==> ts[i] == Plain(t[i])
  {
    if |t| == 0 then [] else [Plain(t[0])] + PlainTokens(t[1..])
  }

  function RdnTokens(r: Rdn): seq<Token> {
    PlainTokens(r.attrType) + [Plain('=')] + EscapeTokens(r.value)
  }

  function RdnsTokens(rdns: seq<Rdn>): (r: seq<seq<Token>>)
    ensures |r| == |rdns|
    ensures forall i :: 0 <= i < |rdns| ==> r[i] == RdnTokens(rdns[i])
  {
    if |rdns| == 0 then [] else [RdnTokens(rdns[0])] + RdnsTokens(rdns[1..])
  }

  /** `type=value,type=value,…` with values escaped. */
  function Format(rdns: seq<Rdn>): string
    requires |rdns| >= 1
  {
    Render(Seqs.Join(RdnsTokens(rdns), Plain(',')))
  }

  predicate WellTyped(rdns: seq<Rdn>) {
    forall i :: 0 <= i < |rdns| ==> IsAttrType(rdns[i].attrType)
  }

  lemma ParseRdnTokens(r: Rdn)
    requires IsAttrType(r.attrType)
    ensures ParseRdn(RdnTokens(r)) == Success(r)
  {
    var ts := RdnTokens(r);
    var n := |r.attrType|;
    assert ts[n] == Plain('=');
    assert forall i :: 0 <= i < n ==> ts[i] == Plain(r.attrType[i]);
    assert ts[..n] == PlainTokens(r.attrType);
    assert ts[n + 1..] == EscapeTokens(r.value);
    assert Chars(ts[..n]) == r.attrType;
    assert Chars(ts[n + 1..]) == r.value;
  }

  lemma {:induction false} ParseRdnsTokens(rdns: seq<Rdn>)
    requires WellTyped(rdns)
    ensures ParseRdns(RdnsTokens(rdns)) == Success(rdns)
    decreases |rdns|
  {
    if |rdns| > 0 {
      ParseRdnTokens(rdns[0]);
      ParseRdnsTokens(rdns[1..]);
      assert RdnsTokens(rdns)[1..] == RdnsTokens(rdns[1..]);
      assert rdns == [rdns[0]] + rdns[1..];
    }
  }

  lemma {:induction false} JoinLexable(groups: seq<seq<Token>>, sep: Token)
    requires |groups| >= 1
    requires sep != Plain('\\')
    requires forall i :: 0 <= i < |groups| ==> Lexable(groups[i])
    ensures Lexable(Seqs.Join(groups, sep))
    decreases |groups|
  {
    if |groups| > 1 {
      JoinLexable(groups[1..], sep);
    }
  }

  /** Reading a written DN gives back its relative names. */
  lemma ParseFormat(rdns: seq<Rdn>)
    requires |rdns| >= 1 && WellTyped(rdns)
    ensures Parse(Format(rdns)) == Success(rdns)
  {
    var groups := RdnsTokens(rdns);
    forall i | 0 <= i < |groups|
      ensures Plain(',') !in groups[i] && Lexable(groups[i])
    {
      var ts := groups[i];
      var t := rdns[i].attrType;
      forall j | 0 <= j < |ts|
        ensures ts[j] != Plain(',') && ts[j] != Plain('\\')
      {
        if j < |t| {
          assert ts[j] == Plain(t[j]);
        } else if j > |t| {
          assert ts[j] == EscapeTokens(rdns[i].value)[j - |t| - 1];
        }
      }
    }
    JoinLexable(groups, Plain(','));
    LexRender(Seqs.Join(groups, Plain(',')));
    Seqs.SplitJoin(groups, Plain(','));
    ParseRdnsTokens(rdns);
  }

  /** The text of one relative name: `type=` and the escaped value. */
  lemma RenderRdn(r: Rdn)
    ensures Render(RdnTokens(r)) == r.attrType + "=" + EscapeValue(r.value)
  {
    RenderConcat(PlainTokens(r.attrType) + [Plain('=')], EscapeTokens(r.value));
    RenderConcat(PlainTokens(r.attrType), [Plain('=')]);
    RenderPlain(r.attrType);
    assert Render([Plain('=')]) == "=";
  }

  /** A written DN is its leading relative name, a comma, and the rest. */
  lemma FormatCons(r: Rdn, rest: seq<Rdn>)
    ensures Format([r]) == r.attrType + "=" + EscapeValue(r.value)
    ensures |rest| >= 1 ==> Format([r] + rest) == Format([r]) + "," + Format(rest)
  {
    RenderRdn(r);
    assert RdnsTokens([r]) == [RdnTokens(r)];
    if |rest| >= 1 {
      assert RdnsTokens([r] + rest) == [RdnTokens(r)] + RdnsTokens(rest);
      Seqs.JoinCons(RdnTokens(r), RdnsTokens(rest), Plain(','));
      RenderConcat(RdnTokens(r) + [Plain(',')], Seqs.Join(RdnsTokens(rest), Plain(',')));
      RenderConcat(RdnTokens(r), [Plain(',')]);
      assert Render([Plain(',')]) == ",";
    }
  }

  /** Unescaping reverses escaping: the value of a single written relative
      name is the value that was written. */
  lemma EscapeValueRoundTrip(t: string, v: string)
    requires IsAttrType(t)
    ensures Parse(t + "=" + EscapeValue(v)) == Success([Rdn(t, v)])
  {
    ParseFormat([Rdn(t, v)]);
    FormatCons(Rdn(t, v), []);
  }

  lemma {:induction false} RenderConcat(a: seq<Token>, b: seq<Token>)
    ensures Render(a + b) == Render(a) + Render(b)
    decreases |a|
  {
    if |a| > 0 {
      RenderConcat(a[1..], b);
      assert (a + b)[0] == a[0];
      assert (a + b)[1..] == a[1..] + b;
    } else {
      assert a + b == b;
    }
  }

  lemma {:induction false} RenderPlain(t: string)
    ensures Render(PlainTokens(t)) == t
    decreases |t|
  {
    if |t| > 0 {
      RenderPlain(t[1..]);
      assert PlainTokens(t)[1..] == PlainTokens(t[1..]);
      assert t == [t[0]] + t[1..];
    }
  }

  /** A value without special characters is written as it is. */
  lemma EscapeValuePlain(v: string)
    requires IsAttrType(v)
    ensures EscapeValue(v) == v
  {
    assert EscapeTokens(v) == PlainTokens(v);
    RenderPlain(v);
  }

  /** Escaping works character by character. */
  lemma EscapeValueConcat(a: string, b: string)
    ensures EscapeValue(a + b) == EscapeValue(a) + EscapeValue(b)
  {
    assert EscapeTokens(a + b) == EscapeTokens(a) + EscapeTokens(b);
    RenderConcat(EscapeTokens(a), EscapeTokens(b));
  }
}
