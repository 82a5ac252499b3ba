// src/gsdml_parser.c: the tokeniser's attribute lookup and marker search.
module GsdmlParser {
  import opened Bytes

  // The text in front of the terminator of a C string
  type CString = s: string | '\0' !in s

  // ---------- get_attr as a function of the text from p on ----------

  predicate Blank(c: char) { c as int <= 32 }

  predicate Space(c: char) { c == ' ' || c == '\t' || c == '\n' || c == '\r' }

  predicate Quote(c: char) { c == '"' || c == '\'' }

  function SkipBlanks(s: string): (r: string)
    ensures |r| <= |s|
  {
    if s != "" && Blank(s[0]) then SkipBlanks(s[1..]) else s
  }

  // The text up to, and from, the next occurrence of q
  function Before(s: string, q: char): (r: string)
    ensures |r| <= |s|
  {
    if s == "" || s[0] == q then "" else [s[0]] + Before(s[1..], q)
  }

  function From(s: string, q: char): (r: string)
    ensures |r| <= |s|
  {
    if s == "" || s[0] == q then s else From(s[1..], q)
  }

  function DropOne(s: string): (r: string)
    ensures |r| <= |s| && (s != "" ==> |r| < |s|)
  {
    if s == "" then s else s[1..]
  }

  // To the next white space outside quotes
  function SkipToken(s: string): (r: string)
    ensures |r| <= |s|
    ensures s != "" && !Space(s[0]) ==> |r| < |s|
    decreases |s|
  {
    if s == "" || Space(s[0]) then s
    else if Quote(s[0]) then SkipToken(DropOne(From(s[1..], s[0])))
    else SkipToken(s[1..])
  }

  predicate Named(s: string, name: string) { |name| < |s| && s[..|name|] == name && s[|name|] == '=' }

  // The value, not yet cut to the buffer
  function Find(s: string, name: string): Option<string>
    decreases |s|
  {
    if s == "" then None
    else
      var t := SkipBlanks(s);
      if Named(t, name) then Quoted(t[|name| + 1..])
      else if t == "" then None
      else Find(SkipToken(t), name)
  }

  function Quoted(s: string): Option<string>
  {
    if s != "" && Quote(s[0]) then Some(Before(s[1..], s[0])) else None
  }

  lemma {:induction false} SkipBlanksStops(s: string)
    ensures SkipBlanks(s) != "" ==> !Blank(SkipBlanks(s)[0])
  {
    if s != "" && Blank(s[0]) { SkipBlanksStops(s[1..]); }
  }

  // ---------- get_attr itself ----------

  method GetAttr(attrs: CString, name: CString, val: array<char>, valSize: nat) returns (found: bool)
    requires 0 < valSize <= val.Length
    modifies val
    ensures found <==> Find(attrs, name).Some?
    ensures found ==> var v := Find(attrs, name).value;
                      var n := Min(|v|, valSize - 1);
                      val[..n] == v[..n] && val[n] == '\0'
  {
    hide SkipBlanks, SkipToken, Quoted;
    var p: nat := 0;
    while p < |attrs|
      invariant p <= |attrs| && Find(attrs[p..], name) == Find(attrs, name)
      decreases |attrs| - p
    {
      ghost var start := p;
      p := SkipBlanksAt(attrs, p);
      SkipBlanksStops(attrs[start..]);
      if p + |name| < |attrs| && attrs[p..p + |name|] == name && attrs[p + |name|] == '=' {
        assert Named(attrs[p..], name);
        assert attrs[p..][|name| + 1..] == attrs[p + |name| + 1..];
        found := CopyQuoted(attrs, p + |name| + 1, val, valSize);
        return;
      }
      assert !Named(attrs[p..], name) by { NotNamed(attrs, p, name); }
      p := SkipTokenAt(attrs, p);
    }
    found := false;
  }

  lemma NotNamed(attrs: string, p: nat, name: string)
    requires p <= |attrs|
    requires !(p + |name| < |attrs| && attrs[p..p + |name|] == name && attrs[p + |name|] == '=')
    ensures !Named(attrs[p..], name)
  {
    if p + |name| < |attrs| { SubSlice(attrs, p, |attrs|, 0, |name|); }
  }

  method SkipBlanksAt(attrs: string, p0: nat) returns (p: nat)
    requires p0 <= |attrs|
    ensures p0 <= p <= |attrs| && attrs[p..] == SkipBlanks(attrs[p0..])
  {
    p := p0;
    while p < |attrs| && Blank(attrs[p])
      invariant p0 <= p <= |attrs| && SkipBlanks(attrs[p..]) == SkipBlanks(attrs[p0..])
    {
      assert attrs[p..][1..] == attrs[p + 1..];
      p := p + 1;
    }
  }

  method CopyQuoted(attrs: string, p0: nat, val: array<char>, valSize: nat) returns (found: bool)
    requires p0 <= |attrs| && 0 < valSize <= val.Length
    modifies val
    ensures found <==> Quoted(attrs[p0..]).Some?
    ensures found ==> var v := Quoted(attrs[p0..]).value;
                      var n := Min(|v|, valSize - 1);
                      val[..n] == v[..n] && val[n] == '\0'
  {
    if p0 == |attrs| || !Quote(attrs[p0]) {
      return false;
    }
    var quote := attrs[p0];
    var p := p0 + 1;
    var n := 0;
    ghost var v: string := "";
    assert attrs[p0..][1..] == attrs[p..] && v + Before(attrs[p..], quote) == Before(attrs[p..], quote);
    while p < |attrs| && attrs[p] != quote
      invariant p0 < p <= |attrs| && n == Min(|v|, valSize - 1)
      invariant v + Before(attrs[p..], quote) == Before(attrs[p0 + 1..], quote)
      invariant val[..n] == v[..n]
    {
      assert attrs[p..][0] == attrs[p] && attrs[p..][1..] == attrs[p + 1..];
      Assoc(v, [attrs[p]], Before(attrs[p + 1..], quote));
      if n < valSize - 1 {
        val[n] := attrs[p];
        n := n + 1;
      }
      v := v + [attrs[p]];
      p := p + 1;
    }
    assert v + "" == v;
    val[n] := '\0';
    found := true;
  }

  method SkipTokenAt(attrs: string, p0: nat) returns (p: nat)
    requires p0 <= |attrs|
    ensures p0 <= p <= |attrs| && attrs[p..] == SkipToken(attrs[p0..])
  {
    hide Quote, Space, From, SkipToken, DropOne;
    p := p0;
    while p < |attrs| && !Space(attrs[p])
      invariant p0 <= p <= |attrs| && SkipToken(attrs[p..]) == SkipToken(attrs[p0..])
      decreases |attrs| - p
    {
      TokenStep(attrs, p);
      if Quote(attrs[p]) {
        var q := attrs[p];
        p := p + 1;
        p := SkipToQuote(attrs, p, q);
        DropsOne(attrs, p);
        if p < |attrs| {
          p := p + 1;
        }
      } else {
        p := p + 1;
      }
    }
    TokenEnd(attrs, p);
  }

  lemma TokenStep(s: string, p: nat)
    requires p < |s| && !Space(s[p])
    ensures SkipToken(s[p..])
         == if Quote(s[p]) then SkipToken(DropOne(From(s[p + 1..], s[p]))) else SkipToken(s[p + 1..])
  {
    hide Quote, Space, From, DropOne;
    assert s[p..][0] == s[p] && s[p..][1..] == s[p + 1..];
  }

  lemma TokenEnd(s: string, p: nat)
    requires p <= |s| && (p == |s| || Space(s[p]))
    ensures SkipToken(s[p..]) == s[p..]
  {
  }

  lemma DropsOne(s: string, p: nat)
    requires p <= |s|
    ensures DropOne(s[p..]) == s[if p < |s| then p + 1 else p..]
  {
  }

  method SkipToQuote(attrs: string, p0: nat, q: char) returns (p: nat)
    requires p0 <= |attrs|
    ensures p0 <= p <= |attrs| && attrs[p..] == From(attrs[p0..], q)
  {
    p := p0;
    while p < |attrs| && attrs[p] != q
      invariant p0 <= p <= |attrs| && From(attrs[p..], q) == From(attrs[p0..], q)
    {
      assert attrs[p..][0] == attrs[p] && attrs[p..][1..] == attrs[p + 1..];
      p := p + 1;
    }
  }

  // ---------- attribute lists ----------

  datatype Attr = Attr(name: string, quote: char, value: string)
  {
    // A name is not empty and has no blank, quote or '='; a value is anything without its quote.
    predicate WellFormed()
    {
      && name != ""
      && (forall i | 0 <= i < |name| :: name[i] as int > 32 && name[i] != '"' && name[i] != '\'' && name[i] != '=')
      && (quote == '"' || quote == '\'') && (forall i | 0 <= i < |value| :: value[i] != quote)
    }

    function Text(): string { name + "=" + [quote] + value + [quote] }
  }

  predicate Spaces(s: string)
  {
    forall i | 0 <= i < |s| :: s[i] == ' ' || s[i] == '\t' || s[i] == '\n' || s[i] == '\r'
  }

  // gap attr gap attr ... gap: every gap between two attributes is white space and not empty
  function Text(attrs: seq<Attr>, gaps: seq<string>): string
    requires |gaps| == |attrs| + 1
  {
    if attrs == [] then gaps[0] else gaps[0] + (attrs[0].Text() + Text(attrs[1..], gaps[1..]))
  }

  ghost predicate Separated(attrs: seq<Attr>, gaps: seq<string>)
  {
    && |gaps| == |attrs| + 1
    && (forall k | 0 <= k < |gaps| :: Spaces(gaps[k]))
    && (forall k | 0 < k < |attrs| :: gaps[k] != "")
    && (forall k | 0 <= k < |attrs| :: attrs[k].WellFormed())
  }

  function FirstNamed(attrs: seq<Attr>, name: string): Option<string>
  {
    if attrs == [] then None
    else if attrs[0].name == name then Some(attrs[0].value)
    else FirstNamed(attrs[1..], name)
  }

  // Control characters in front of an attribute do not matter either.
  lemma BlankSkipped(c: char, s: string, name: string)
    requires c as int <= 32
    ensures Find([c] + s, name) == Find(s, name)
  {
    hide Named, Quoted, SkipToken;
    assert ([c] + s)[1..] == s && SkipBlanks([c] + s) == SkipBlanks(s);
    if s == "" { NamedNothing(name); }
  }

  lemma NamedNothing(name: string)
    ensures !Named("", name)
  {
  }

  lemma {:induction false} SkipsGap(gap: string, rest: string)
    requires Spaces(gap) && (rest == "" || !Blank(rest[0]))
    ensures SkipBlanks(gap + rest) == rest
  {
    if gap == "" {
      assert gap + rest == rest;
    } else {
      assert (gap + rest)[1..] == gap[1..] + rest && (gap + rest)[0] == gap[0];
      SkipsGap(gap[1..], rest);
    }
  }

  lemma {:induction false} SkipsPlain(plain: string, rest: string)
    requires forall i | 0 <= i < |plain| :: !Blank(plain[i]) && !Quote(plain[i])
    ensures SkipToken(plain + rest) == SkipToken(rest)
  {
    if plain == "" {
      assert plain + rest == rest;
    } else {
      assert (plain + rest)[1..] == plain[1..] + rest && (plain + rest)[0] == plain[0];
      SkipsPlain(plain[1..], rest);
    }
  }

  lemma {:induction false} ValueEnds(value: string, q: char, rest: string)
    requires forall i | 0 <= i < |value| :: value[i] != q
    ensures Before(value + [q] + rest, q) == value && From(value + [q] + rest, q) == [q] + rest
  {
    var s := value + [q] + rest;
    if value == "" {
      assert s == [q] + rest;
    } else {
      assert s[0] == value[0] && s[1..] == value[1..] + [q] + rest;
      ValueEnds(value[1..], q, rest);
    }
  }

  // A whole attribute is one token, whatever its value contains.
  lemma SkipsAttr(a: Attr, rest: string)
    requires a.WellFormed() && (rest == "" || Space(rest[0]))
    ensures SkipToken(a.Text() + rest) == rest
  {
    var plain := a.name + "=";
    var tail := [a.quote] + (a.value + [a.quote] + rest);
    assert a.Text() + rest == plain + tail;
    SkipsPlain(plain, tail);
    assert tail[1..] == a.value + [a.quote] + rest;
    ValueEnds(a.value, a.quote, rest);
    assert ([a.quote] + rest)[1..] == rest;
  }

  // Without '=' or without a quote character, as every name the parser asks for
  predicate PlainName(name: string)
  {
    '=' !in name || ('"' !in name && '\'' !in name)
  }

  lemma NamedIff(a: Attr, rest: string, name: string)
    requires a.WellFormed() && PlainName(name)
    ensures Named(a.Text() + rest, name) <==> a.name == name
  {
    var s := a.Text() + rest;
    assert s[|a.name| + 1] == a.quote;
    assert s[..|a.name|] == a.name && s[|a.name|] == '=';
    assert |name| < |a.name| ==> s[|name|] == a.name[|name|] != '=';
    assert |a.name| < |name| < |s| ==> s[..|name|][|a.name|] == '=';
    assert |a.name| + 1 < |name| < |s| ==> s[..|name|][|a.name| + 1] == a.quote;
  }

  // get_attr finds the first attribute whose name is exactly the one asked for, even when values
  // contain white space or text that looks like an attribute; else it finds nothing.
  lemma {:induction false} FindsFirst(attrs: seq<Attr>, gaps: seq<string>, name: string)
    requires Separated(attrs, gaps) && PlainName(name)
    ensures Find(Text(attrs, gaps), name) == FirstNamed(attrs, name)
    decreases |attrs|
  {
    hide Attr.Text, Attr.WellFormed, SkipToken, SkipBlanks, Quoted, Named, Spaces;
    var s := Text(attrs, gaps);
    if attrs == [] {
      FindsNothing(s, name);
    } else {
      var a, rest := attrs[0], Text(attrs[1..], gaps[1..]);
      RestStartsWithGap(attrs, gaps);
      FindsNext(gaps[0], a, rest, name);
      NamedIff(a, rest, name);
      if a.name == name {
        FindsHere(a, rest);
      } else {
        FindsFirst(attrs[1..], gaps[1..], name);
      }
    }
  }

  // Some attribute begins with `name=`, and in the first that does a quote follows.
  predicate LooksNamed(attrs: seq<Attr>, gaps: seq<string>, name: string)
    requires |gaps| == |attrs| + 1
    decreases |attrs|
  {
    attrs != []
    && var rest := Text(attrs[1..], gaps[1..]);
       var t := attrs[0].Text() + rest;
       if Named(t, name) then Quoted(t[|name| + 1..]).Some? else LooksNamed(attrs[1..], gaps[1..], name)
  }

  // A name with '=' and a quote names no attribute, yet it can match into a value: the lookup is
  // right iff the name is plain or no attribute looks as if it had that name.
  lemma FindsFirstIff(attrs: seq<Attr>, gaps: seq<string>, name: string)
    requires Separated(attrs, gaps)
    ensures Find(Text(attrs, gaps), name) == FirstNamed(attrs, name)
            <==> PlainName(name) || !LooksNamed(attrs, gaps, name)
  {
    if PlainName(name) {
      FindsFirst(attrs, gaps, name);
    } else {
      NoneNamed(attrs, name);
      FindsIffLooks(attrs, gaps, name);
    }
  }

  lemma {:induction false} NoneNamed(attrs: seq<Attr>, name: string)
    requires '=' in name && forall k | 0 <= k < |attrs| :: attrs[k].WellFormed()
    ensures FirstNamed(attrs, name) == None
  {
    if attrs != [] {
      assert attrs[0].WellFormed() && '=' !in attrs[0].name;
      NoneNamed(attrs[1..], name);
    }
  }

  lemma {:induction false} FindsIffLooks(attrs: seq<Attr>, gaps: seq<string>, name: string)
    requires Separated(attrs, gaps)
    ensures Find(Text(attrs, gaps), name).Some? <==> LooksNamed(attrs, gaps, name)
    decreases |attrs|
  {
    hide Attr.Text, Attr.WellFormed, SkipToken, SkipBlanks, Quoted, Named, Spaces;
    if attrs == [] {
      FindsNothing(Text(attrs, gaps), name);
    } else {
      RestStartsWithGap(attrs, gaps);
      FindsNext(gaps[0], attrs[0], Text(attrs[1..], gaps[1..]), name);
      FindsIffLooks(attrs[1..], gaps[1..], name);
    }
  }

  // A name that is followed by '=' but not by a quote ends the search without a value.
  lemma UnquotedFails(name: string, rest: string)
    requires name != "" && name[0] as int > 32 && (rest == "" || (rest[0] != '"' && rest[0] != '\''))
    ensures Find(name + "=" + rest, name) == None
  {
    var t := name + "=" + rest;
    assert t[0] == name[0] && SkipBlanks(t) == t;
    assert t[..|name|] == name && t[|name|] == '=' && t[|name| + 1..] == rest;
  }

  // The name a="b matches into the value of a="b=".
  lemma NameWithEqualsMatches()
    ensures Separated([Attr("a", '"', "b=")], ["", ""])
    ensures Find(Text([Attr("a", '"', "b=")], ["", ""]), "a=\"b") == Some("")
  {
    var a := Attr("a", '"', "b=");
    var t := a.Text();
    assert t == "a=\"b=\"" && a.WellFormed();
    assert Text([a], ["", ""]) == "" + (t + "") == t;
    SkipsGap("", t);
    assert t[..4] == "a=\"b" && t[5..] == "\"";
  }

  lemma FindsNothing(s: string, name: string)
    requires Spaces(s)
    ensures Find(s, name) == None
  {
    assert s == s + "";
    SkipsGap(s, "");
  }

  lemma FindsNext(gap: string, a: Attr, rest: string, name: string)
    requires Spaces(gap) && a.WellFormed() && (rest == "" || Space(rest[0]))
    ensures var t := a.Text() + rest;
            Find(gap + t, name) == if Named(t, name) then Quoted(t[|name| + 1..]) else Find(rest, name)
  {
    hide SkipToken, SkipBlanks, Quoted, Named;
    assert !Blank((a.Text() + rest)[0]);
    SkipsGap(gap, a.Text() + rest);
    SkipsAttr(a, rest);
  }

  lemma FindsHere(a: Attr, rest: string)
    requires a.WellFormed()
    ensures Quoted((a.Text() + rest)[|a.name| + 1..]) == Some(a.value)
  {
    var t := (a.Text() + rest)[|a.name| + 1..];
    assert t == [a.quote] + (a.value + [a.quote] + rest);
    assert t[1..] == a.value + [a.quote] + rest;
    ValueEnds(a.value, a.quote, rest);
  }

  lemma RestStartsWithGap(attrs: seq<Attr>, gaps: seq<string>)
    requires Separated(attrs, gaps) && attrs != []
    ensures var rest := Text(attrs[1..], gaps[1..]); rest == "" || Space(rest[0])
    ensures Separated(attrs[1..], gaps[1..])
  {
    assert gaps[1..][0] == gaps[1];
    if |attrs| > 1 { assert gaps[1] != "" && Spaces(gaps[1]); }
  }

  // ---------- skip_to ----------

  class XmlBuf {
    const buf: string
    var pos: nat

    constructor (buf: string)
      ensures this.buf == buf && pos == 0
    {
      this.buf, pos := buf, 0;
    }

    predicate MarkerAt(i: nat, marker: string)
    {
      i + |marker| <= |buf| && buf[i..i + |marker|] == marker
    }

    // Past the first occurrence of the marker from pos on, or 0 when there is none
    method SkipTo(marker: string) returns (found: bool)
      requires pos <= |buf|
      modifies this
      ensures pos <= |buf| && old(pos) <= pos
      ensures found <==> exists i :: old(pos) <= i <= |buf| && MarkerAt(i, marker)
      ensures found ==> old(pos) <= pos - |marker| && MarkerAt(pos - |marker|, marker)
                        && forall i | old(pos) <= i < pos - |marker| :: !MarkerAt(i, marker)
    {
      while pos + |marker| <= |buf|
        invariant old(pos) <= pos <= |buf|
        invariant forall i | old(pos) <= i < pos :: !MarkerAt(i, marker)
      {
        if buf[pos..pos + |marker|] == marker {
          assert MarkerAt(pos, marker);
          pos := pos + |marker|;
          return true;
        }
        pos := pos + 1;
      }
      found := false;
    }
  }
}
