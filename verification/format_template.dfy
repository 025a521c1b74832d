/**
 * The version templates (`"{major}.{minor}"`, `"/v{major}_{minor}"`) and the
 * subset of string formatting that fills them: doubled braces stand for
 * themselves, `{major}` and `{minor}` are replaced by the decimal text of the
 * numbers, and every other placeholder is an error.  A template is read
 * left to right, and the first thing that cannot be printed is the error
 * reported, so lexing and rendering interleave as Python's `str.format` does.
 */
module Template {
  import opened Results
  import Decimal
  import opened Seqs

  /** One piece of a lexed template. A `Fault` is always the last piece. */
  datatype Seg =
    | Literal(c: char)
    | Major
    | Minor
    | Field(name: string)   // any placeholder other than `major` and `minor`
    | Fault(fault: FormatFault)

  /** A piece that renders to text rather than to an error. */
  predicate Printable(g: Seg) {
    g.Literal? || g.Major? || g.Minor?
  }

  /** The error a piece that is not printable raises. */
  function SegError(g: Seg): Error
    requires !Printable(g)
  {
    match g
    case Field(name) => UnknownField(name)
    case Fault(f) => Malformed(f)
  }

  /** The placeholder a field name denotes. */
  function FieldSeg(name: string): (g: Seg)
    ensures g.Major? <==> name == "major"
    ensures g.Minor? <==> name == "minor"
    ensures g.Field? <==> name != "major" && name != "minor"
  {
    if name == "major" then Major else if name == "minor" then Minor else Field(name)
  }

  /** The first index at or after `i` holding `}`, or `|s|` when there is none. */
  function CloseAt(s: string, i: nat): (j: nat)
    requires i <= |s|
    ensures i <= j <= |s|
    ensures j < |s| ==> s[j] == '}'
    ensures forall k :: i <= k < j ==> s[k] != '}'
    decreases |s| - i
  {
    if i == |s| || s[i] == '}' then i else CloseAt(s, i + 1)
  }

  /**
   * The piece at the front of a non-empty template and the number of
   * characters it spans; a fault spans the rest of the template.
   */
  function Next(s: string): (p: (Seg, nat))
    requires s != []
    ensures 1 <= p.1 <= |s|
  {
    if s[0] == '{' then
      if |s| == 1 then (Fault(SingleOpen), 1)
      else if s[1] == '{' then (Literal('{'), 2)
      else
        var j := CloseAt(s, 1);
        if '{' in s[1..j] then (Fault(BraceInField), |s|)
        else if j == |s| then (Fault(Unclosed), |s|)
        else (FieldSeg(s[1..j]), j + 1)
    else if s[0] == '}' then
      if |s| >= 2 && s[1] == '}' then (Literal('}'), 2) else (Fault(SingleClose), |s|)
    else (Literal(s[0]), 1)
  }

  /** Splits a template into pieces, stopping at the first malformed brace. */
  function Lex(s: string): (t: seq<Seg>)
    ensures forall i :: 0 <= i < |t| - 1 ==> !t[i].Fault?
    decreases |s|
  {
    if s == [] then []
    else
      var (g, n) := Next(s);
      if g.Fault? then [g] else [g] + Lex(s[n..])
  }

  function RenderSeg(g: Seg, major: int, minor: int): (r: Result<string>)
    ensures r.Ok? <==> Printable(g)
    ensures r.Err? ==> r.error == SegError(g)
  {
    match g
    case Literal(c) => Ok([c])
    case Major => Ok(Decimal.IntToString(major))
    case Minor => Ok(Decimal.IntToString(minor))
    case Field(name) => Err(UnknownField(name))
    case Fault(f) => Err(Malformed(f))
  }

  /** `i` is the position of the first piece of `t` that cannot be printed. */
  predicate FirstBad(t: seq<Seg>, i: int) {
    && 0 <= i < |t|
    && !Printable(t[i])
    && forall j :: 0 <= j < i ==> Printable(t[j])
  }

  /** Renders pieces left to right, stopping at the first piece that is not printable. */
  function Render(t: seq<Seg>, major: int, minor: int): Result<string> {
    if t == [] then Ok("")
    else
      var head :- RenderSeg(t[0], major, minor);
      var rest :- Render(t[1..], major, minor);
      Ok(head + rest)
  }

  /**
   * Rendering succeeds exactly when every piece is printable; otherwise the
   * error is the one of the first piece that is not.
   */
  lemma {:induction false} RenderOutcome(t: seq<Seg>, major: int, minor: int)
    ensures Render(t, major, minor).Ok? <==> forall i :: 0 <= i < |t| ==> Printable(t[i])
    ensures Render(t, major, minor).Err? ==>
      exists i :: FirstBad(t, i) && Render(t, major, minor).error == SegError(t[i])
  {
    if t != [] {
      RenderOutcome(t[1..], major, minor);
      assert forall i :: 1 <= i < |t| ==> t[i] == t[1..][i - 1];
      if Printable(t[0]) && Render(t[1..], major, minor).Err? {
        var i :| FirstBad(t[1..], i) && Render(t[1..], major, minor).error == SegError(t[1..][i]);
        assert FirstBad(t, i + 1);
      }
    }
  }

  /** Fills a template with a version, as `template.format(major=..., minor=...)` does. */
  function Format(template: string, major: int, minor: int): (r: Result<string>)
    ensures r.Ok? <==> forall i :: 0 <= i < |Lex(template)| ==> Printable(Lex(template)[i])
    ensures r.Err? ==> exists i :: FirstBad(Lex(template), i) && r.error == SegError(Lex(template)[i])
  {
    RenderOutcome(Lex(template), major, minor);
    Render(Lex(template), major, minor)
  }

  /** Writes a piece back as template text. */
  function UnparseSeg(g: Seg): string {
    match g
    case Literal(c) => if c == '{' then "{{" else if c == '}' then "}}" else [c]
    case Major => "{major}"
    case Minor => "{minor}"
    case Field(name) => "{" + name + "}"
    case Fault(_) => ""
  }

  function Unparse(t: seq<Seg>): string {
    if t == [] then "" else UnparseSeg(t[0]) + Unparse(t[1..])
  }

  /** A piece that some template lexes to: no fault, and field names free of braces. */
  predicate WellFormedSeg(g: Seg) {
    match g
    case Fault(_) => false
    case Field(name) => name != "major" && name != "minor" && '{' !in name && '}' !in name
    case _ => true
  }

  lemma CloseAfterName(name: string, rest: string)
    requires '}' !in name
    ensures CloseAt("{" + name + "}" + rest, 1) == |name| + 1
    ensures ("{" + name + "}" + rest)[1..|name| + 1] == name
  {
    var s := "{" + name + "}" + rest;
    var n := |name|;
    assert s[n + 1] == '}';
    assert forall k :: 1 <= k <= n ==> s[k] == name[k - 1];
    assert s[1..n + 1] == name;
  }

  lemma NextUnparseSeg(g: Seg, rest: string)
    requires WellFormedSeg(g)
    ensures Next(UnparseSeg(g) + rest) == (g, |UnparseSeg(g)|)
  {
    match g
    case Literal(c) =>
    case Major =>
      assert UnparseSeg(g) == "{" + "major" + "}";
      CloseAfterName("major", rest);
    case Minor =>
      assert UnparseSeg(g) == "{" + "minor" + "}";
      CloseAfterName("minor", rest);
    case Field(name) =>
      CloseAfterName(name, rest);
  }

  /** Lexing the text of well-formed pieces gives back exactly those pieces. */
  lemma {:induction false} LexUnparse(t: seq<Seg>)
    requires forall i :: 0 <= i < |t| ==> WellFormedSeg(t[i])
    ensures Lex(Unparse(t)) == t
  {
    if t != [] {
      var rest := Unparse(t[1..]);
      LexUnparse(t[1..]);
      NextUnparseSeg(t[0], rest);
      var s := UnparseSeg(t[0]) + rest;
      assert s[|UnparseSeg(t[0])|..] == rest;
    }
  }

  /** The text a non-fault piece spans is the text of that piece. */
  lemma NextSpansUnparse(s: string)
    requires s != [] && !Next(s).0.Fault?
    ensures UnparseSeg(Next(s).0) == s[..Next(s).1]
  {
    if s[0] == '{' && |s| > 1 && s[1] != '{' {
      var j := CloseAt(s, 1);
      assert s[..j + 1] == "{" + s[1..j] + "}";
    }
  }

  /** A template whose pieces hold no fault is exactly the text of its pieces. */
  lemma {:induction false} UnparseLex(s: string)
    requires forall i :: 0 <= i < |Lex(s)| ==> !Lex(s)[i].Fault?
    ensures Unparse(Lex(s)) == s
    decreases |s|
  {
    if s != [] {
      var (g, n) := Next(s);
      assert Lex(s)[0] == g;
      assert Lex(s)[1..] == Lex(s[n..]);
      UnparseLex(s[n..]);
      NextSpansUnparse(s);
      TakeDrop(s, n);
    }
  }

  /**
   * Whether a template can be filled, and with which error it fails, does
   * not depend on the version numbers put into it.
   */
  lemma FormatOutcomeIndependent(template: string, a: int, b: int, c: int, d: int)
    ensures Format(template, a, b).Ok? == Format(template, c, d).Ok?
    ensures Format(template, a, b).Err? ==> Format(template, a, b) == Format(template, c, d)
  {
    var t := Lex(template);
    var r1 := Render(t, a, b);
    var r2 := Render(t, c, d);
    RenderOutcome(t, a, b);
    RenderOutcome(t, c, d);
    if r1.Err? {
      var i :| FirstBad(t, i) && r1.error == SegError(t[i]);
      var k :| FirstBad(t, k) && r2.error == SegError(t[k]);
      assert !(i < k) && !(k < i);
    }
  }

  lemma RenderCons(g: Seg, t: seq<Seg>, major: int, minor: int)
    requires Printable(g) && Render(t, major, minor).Ok?
    ensures Render([g] + t, major, minor)
         == Ok(RenderSeg(g, major, minor).value + Render(t, major, minor).value)
  {
    assert ([g] + t)[1..] == t;
  }

  /** Lexing a template that starts with the text of a piece yields that piece first. */
  lemma LexFront(g: Seg, rest: string)
    requires WellFormedSeg(g)
    ensures Lex(UnparseSeg(g) + rest) == [g] + Lex(rest)
  {
    NextUnparseSeg(g, rest);
    var s := UnparseSeg(g) + rest;
    assert s[|UnparseSeg(g)|..] == rest;
  }

  /** Text free of braces, which a template reproduces verbatim. */
  predicate Plain(p: string) {
    '{' !in p && '}' !in p
  }

  function Literals(p: string): (t: seq<Seg>)
    ensures |t| == |p|
    ensures forall i :: 0 <= i < |p| ==> t[i] == Literal(p[i])
  {
    seq(|p|, i requires 0 <= i < |p| => Literal(p[i]))
  }

  lemma LiteralsCons(p: string)
    requires p != []
    ensures Literals(p) == [Literal(p[0])] + Literals(p[1..])
    ensures Plain(p) ==> p[0] != '{' && p[0] != '}' && Plain(p[1..])
  {
    assert p[0] in p;
    assert forall x :: x in p[1..] ==> x in p;
  }

  lemma LexLiteralFront(c: char, s: string)
    requires c != '{' && c != '}'
    ensures Lex([c] + s) == [Literal(c)] + Lex(s)
  {
    assert UnparseSeg(Literal(c)) == [c];
    LexFront(Literal(c), s);
  }

  lemma {:induction false} LexPlain(p: string, rest: string)
    requires Plain(p)
    ensures Lex(p + rest) == Literals(p) + Lex(rest)
    decreases |p|
  {
    if p == [] {
      assert p + rest == rest;
    } else {
      var c := p[0];
      var q := p[1..];
      LiteralsCons(p);
      SplitFront(p, rest);
      LexLiteralFront(c, q + rest);
      LexPlain(q, rest);
      Assoc([Literal(c)], Literals(q), Lex(rest));
    }
  }

  lemma {:induction false} RenderConcat(t1: seq<Seg>, t2: seq<Seg>, major: int, minor: int)
    requires Render(t1, major, minor).Ok? && Render(t2, major, minor).Ok?
    ensures Render(t1 + t2, major, minor)
         == Ok(Render(t1, major, minor).value + Render(t2, major, minor).value)
    decreases |t1|
  {
    if t1 == [] {
      AppendEmpty(t2);
      AppendEmpty(Render(t2, major, minor).value);
    } else {
      var g := t1[0];
      var rest := t1[1..];
      SplitFront(t1, t2);
      assert t1 == [g] + rest;
      assert Render(rest, major, minor).Ok?;
      RenderConcat(rest, t2, major, minor);
      RenderCons(g, rest, major, minor);
      RenderCons(g, rest + t2, major, minor);
      Assoc(RenderSeg(g, major, minor).value, Render(rest, major, minor).value, Render(t2, major, minor).value);
    }
  }

  lemma {:induction false} RenderLiterals(p: string, major: int, minor: int)
    ensures Render(Literals(p), major, minor) == Ok(p)
    decreases |p|
  {
    if p != [] {
      RenderLiterals(p[1..], major, minor);
      assert Literals(p)[1..] == Literals(p[1..]);
      assert p == [p[0]] + p[1..];
    }
  }

  /** The pieces a template with one `{major}` and one `{minor}` lexes to. */
  function TwoPlaceholders(p1: string, p2: string, p3: string): seq<Seg> {
    Literals(p1) + ([Major] + (Literals(p2) + ([Minor] + Literals(p3))))
  }

  lemma LexPlainAlone(p: string)
    requires Plain(p)
    ensures Lex(p) == Literals(p)
  {
    LexPlain(p, "");
    assert p + "" == p;
    assert Literals(p) + Lex("") == Literals(p);
  }

  /** The text of a template with one `{major}` and one `{minor}`, grouped from the right. */
  lemma TwoPlaceholderText(p1: string, p2: string, p3: string)
    ensures p1 + "{major}" + p2 + "{minor}" + p3
         == p1 + (UnparseSeg(Major) + (p2 + (UnparseSeg(Minor) + p3)))
  {
    assert UnparseSeg(Major) == "{major}" && UnparseSeg(Minor) == "{minor}";
    RightGroup5(p1, "{major}", p2, "{minor}", p3);
  }

  lemma TwoPlaceholderLex(p1: string, p2: string, p3: string)
    requires Plain(p1) && Plain(p2) && Plain(p3)
    ensures Lex(p1 + "{major}" + p2 + "{minor}" + p3) == TwoPlaceholders(p1, p2, p3)
  {
    var l1, l2, l3 := Literals(p1), Literals(p2), Literals(p3);
    LexPlainAlone(p3);
    var tail := UnparseSeg(Minor) + p3;
    LexFront(Minor, p3);
    var s2 := p2 + tail;
    LexPlain(p2, tail);
    var s3 := UnparseSeg(Major) + s2;
    LexFront(Major, s2);
    LexPlain(p1, s3);
    TwoPlaceholderText(p1, p2, p3);
  }

  lemma TwoPlaceholderRender(p1: string, p2: string, p3: string, major: int, minor: int)
    ensures Render(TwoPlaceholders(p1, p2, p3), major, minor)
         == Ok(p1 + Decimal.IntToString(major) + p2 + Decimal.IntToString(minor) + p3)
  {
    var a := Decimal.IntToString(major);
    var b := Decimal.IntToString(minor);
    var l1, l2, l3 := Literals(p1), Literals(p2), Literals(p3);
    RenderLiterals(p3, major, minor);
    RenderCons(Minor, l3, major, minor);
    var t3 := [Minor] + l3;
    assert Render(t3, major, minor) == Ok(b + p3);
    RenderLiterals(p2, major, minor);
    RenderConcat(l2, t3, major, minor);
    var t2 := l2 + t3;
    assert Render(t2, major, minor) == Ok(p2 + (b + p3));
    RenderCons(Major, t2, major, minor);
    var t1 := [Major] + t2;
    assert Render(t1, major, minor) == Ok(a + (p2 + (b + p3)));
    RenderLiterals(p1, major, minor);
    RenderConcat(l1, t1, major, minor);
    assert TwoPlaceholders(p1, p2, p3) == l1 + t1;
    RightGroup5(p1, a, p2, b, p3);
  }

  /**
   * A template with brace-free text around one `{major}` and one `{minor}`
   * placeholder (both defaults have this shape) is filled by putting the
   * decimal text of the numbers in their places.
   */
  lemma TwoPlaceholderFormat(p1: string, p2: string, p3: string, major: int, minor: int)
    requires Plain(p1) && Plain(p2) && Plain(p3)
    ensures Format(p1 + "{major}" + p2 + "{minor}" + p3, major, minor)
         == Ok(p1 + Decimal.IntToString(major) + p2 + Decimal.IntToString(minor) + p3)
  {
    TwoPlaceholderLex(p1, p2, p3);
    TwoPlaceholderRender(p1, p2, p3, major, minor);
  }

  /** The mount template used when none is given: `/v{major}_{minor}`. */
  const DefaultVersionPrefix: string := "/v" + "{major}" + "_" + "{minor}"

  /** The label template used when none is given: `{major}.{minor}`. */
  const DefaultVersionFormat: string := "{major}" + "." + "{minor}"

  /** The default mount template gives `/v<major>_<minor>`. */
  lemma DefaultPrefixFormat(major: int, minor: int)
    ensures Format(DefaultVersionPrefix, major, minor)
         == Ok("/v" + Decimal.IntToString(major) + "_" + Decimal.IntToString(minor))
  {
    assert Plain("/v") && Plain("_") && Plain("");
    TwoPlaceholderFormat("/v", "_", "", major, minor);
    var a, b := Decimal.IntToString(major), Decimal.IntToString(minor);
    AppendEmpty("/v" + "{major}" + "_" + "{minor}");
    AppendEmpty("/v" + a + "_" + b);
  }

  /** The default label template gives `<major>.<minor>`. */
  lemma DefaultLabelFormat(major: int, minor: int)
    ensures Format(DefaultVersionFormat, major, minor)
         == Ok(Decimal.IntToString(major) + "." + Decimal.IntToString(minor))
  {
    assert Plain("") && Plain(".");
    TwoPlaceholderFormat("", ".", "", major, minor);
    var a, b := Decimal.IntToString(major), Decimal.IntToString(minor);
    AppendEmpty("{major}" + "." + "{minor}");
    AppendEmpty<char>("{major}");
    AppendEmpty(a + "." + b);
    AppendEmpty(a);
  }

  /**
   * A `{` inside a field name makes the template malformed, not a reference
   * to an unknown field, whatever brace-free text comes before the field and
   * whatever follows the second `{`.
   */
  lemma BraceInFieldFront(p: string, a: string, rest: string, major: int, minor: int)
    requires Plain(p) && a != [] && Plain(a)
    ensures Format(p + ("{" + a + "{" + rest), major, minor) == Err(Malformed(BraceInField))
  {
    var s := "{" + a + "{" + rest;
    assert s[0] == '{' && s[1] == a[0] && s[|a| + 1] == '{';
    assert forall k :: 1 <= k <= |a| ==> s[k] == a[k - 1];
    assert forall k :: 1 <= k <= |a| + 1 ==> s[k] != '}';
    var j := CloseAt(s, 1);
    assert |a| + 1 < j;
    assert '{' in s[1..j] by { assert s[1..j][|a|] == '{'; }
    assert Lex(s) == [Fault(BraceInField)];
    LexPlain(p, s);
    var t := Lex(p + s);
    assert t == Literals(p) + [Fault(BraceInField)];
    var r := Format(p + s, major, minor);
    assert t[|p|] == Fault(BraceInField);
    assert r.Err?;
    var i :| FirstBad(t, i) && r.error == SegError(t[i]);
    assert i == |p|;
  }

}
