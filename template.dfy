/**
 * A closed-field stand-in for the `text/template` engine the plugin builds with
 * `[[` and `]]` as delimiters: a template is literal text and field actions
 * such as `[[.Request.Host]]`; executing it substitutes each field's value
 * from the rendering context.
 */
module Template {
  import opened Wrappers
  import opened Http
  import Plugin

  const LeftDelim: string := "[["
  const RightDelim: string := "]]"

  const ErrUnclosedAction: string := "unclosed action"
  const ErrBadAction: string := "unsupported action: "
  const ErrNoCertificate: string := "no peer certificate"
  const ErrUnknownField: string := "can't evaluate field: "

  /** The request fields a template may name. */
  const RequestFields: set<seq<string>> := {["Request", "Host"], ["Request", "Method"], ["Request", "URL"]}

  /** The certificate fields a template may name. */
  const CertFields: set<seq<string>> :=
    {["Cert", "Subject", "CommonName"], ["Cert", "Issuer", "CommonName"], ["Cert", "SerialNumber"]}

  /** A piece of a compiled template: literal text, or a field action with its source text and path. */
  datatype Piece = Text(text: string) | Field(source: string, path: seq<string>)

  type Program = seq<Piece>

  /** The two-character delimiter `d` occurs in `s` at position `j`. */
  predicate MatchAt(s: string, d: string, j: int)
  {
    |d| == 2 && 0 <= j && j + 1 < |s| && s[j] == d[0] && s[j + 1] == d[1]
  }

  /** `d` occurs nowhere in `s`. */
  predicate Free(s: string, d: string)
  {
    forall j | 0 <= j <= |s| :: !MatchAt(s, d, j)
  }

  predicate EndsWith(s: string, c: char)
  {
    |s| > 0 && s[|s| - 1] == c
  }

  /** The first position from `from` on where the two-character delimiter `d` occurs in `s`, or |s| when it does not. */
  function Find(s: string, d: string, from: nat): (i: nat)
    requires |d| == 2 && from <= |s|
    ensures from <= i <= |s|
    ensures i < |s| ==> MatchAt(s, d, i)
    decreases |s| - from
  {
    if from + 1 >= |s| then |s|
    else if s[from] == d[0] && s[from + 1] == d[1] then from
    else Find(s, d, from + 1)
  }

  /** `Find` finds the first occurrence, and reports |s| exactly when there is none. */
  lemma {:induction false} FindFirst(s: string, d: string, from: nat)
    requires |d| == 2 && from <= |s|
    ensures forall j :: from <= j < Find(s, d, from) ==> !MatchAt(s, d, j)
    ensures Find(s, d, from) == |s| ==> forall j :: from <= j ==> !MatchAt(s, d, j)
    decreases |s| - from
  {
    if from + 1 < |s| && !(s[from] == d[0] && s[from + 1] == d[1]) {
      FindFirst(s, d, from + 1);
    }
  }

  /** An occurrence with none before it, from `from` on, is the one `Find` reports. */
  lemma FindAt(s: string, d: string, from: nat, k: nat)
    requires |d| == 2 && from <= k && MatchAt(s, d, k)
    requires forall j :: from <= j < k ==> !MatchAt(s, d, j)
    ensures Find(s, d, from) == k
  {
    FindFirst(s, d, from);
  }

  /** The first position of `c` in `s`, or |s| when it does not occur. */
  function IndexOfChar(s: string, c: char): (i: nat)
    ensures i <= |s|
    ensures i < |s| ==> s[i] == c
    decreases |s|
  {
    if |s| == 0 || s[0] == c then 0
    else 1 + IndexOfChar(s[1..], c)
  }

  predicate IsSpace(c: char)
  {
    c == ' ' || c == '\t' || c == '\r' || c == '\n'
  }

  function TrimLeft(s: string): string
    decreases |s|
  {
    if |s| > 0 && IsSpace(s[0]) then TrimLeft(s[1..]) else s
  }

  function TrimRight(s: string): string
    decreases |s|
  {
    if |s| > 0 && IsSpace(s[|s| - 1]) then TrimRight(s[..|s| - 1]) else s
  }

  predicate IsLetter(c: char)
  {
    ('a' <= c <= 'z') || ('A' <= c <= 'Z') || c == '_'
  }

  predicate IsIdent(s: string)
  {
    |s| > 0 && IsLetter(s[0]) && forall i :: 1 <= i < |s| ==> IsLetter(s[i]) || ('0' <= s[i] <= '9')
  }

  /** `Ident ('.' Ident)*` as a list of identifiers. */
  function Path(s: string): Option<seq<string>>
    decreases |s|
  {
    var k := IndexOfChar(s, '.');
    var head := s[..k];
    if !IsIdent(head) then None
    else if k == |s| then Some([head])
    else
      match Path(s[k + 1..])
      case None => None
      case Some(tail) => Some([head] + tail)
  }

  /** The field chain an action's text names, such as `.Request.Host`, spaces around it allowed. */
  function FieldPath(source: string): Option<seq<string>>
  {
    var t := TrimRight(TrimLeft(source));
    if |t| > 0 && t[0] == '.' then Path(t[1..]) else None
  }

  /** The template text a program was compiled from. */
  function Unparse(p: Program): string
    decreases |p|
  {
    if |p| == 0 then []
    else
      match p[0]
      case Text(t) => t + Unparse(p[1..])
      case Field(source, _) => LeftDelim + source + RightDelim + Unparse(p[1..])
  }

  /**
   * The programs `Parse` produces: no empty text, no two texts side by side,
   * no delimiter inside a text or an action, and no text or action ending
   * with half of the delimiter that follows it.
   */
  predicate Canonical(p: Program)
    decreases |p|
  {
    |p| == 0 ||
    match p[0]
    case Text(t) =>
      && |t| > 0 && Free(t, LeftDelim)
      && (|p| == 1 || (p[1].Field? && !EndsWith(t, '[') && Canonical(p[1..])))
    case Field(source, path) =>
      && Free(source, RightDelim) && !EndsWith(source, ']')
      && FieldPath(source) == Some(path)
      && Canonical(p[1..])
  }

  /** One step of compiling: the text before the first `[[`, the action up to the next `]]`, and what follows. */
  datatype Cut = Plain | Unclosed | Action(before: string, source: string, after: string)

  function Split(src: string): (c: Cut)
    ensures c.Action? ==> |c.after| < |src|
  {
    var i := Find(src, LeftDelim, 0);
    if i == |src| then Plain
    else
      var j := Find(src, RightDelim, i + |LeftDelim|);
      if j == |src| then Unclosed
      else Action(src[..i], src[i + |LeftDelim|..j], src[j + |RightDelim|..])
  }

  /** The program one cut contributes, in front of the program compiled from what follows it. */
  function Prefix(before: string, source: string, path: seq<string>, tail: Program): Program
  {
    if |before| == 0 then [Field(source, path)] + tail else [Text(before), Field(source, path)] + tail
  }

  /**
   * `Template.Parse`: splits the source at the first `[[` and the first `]]`
   * after it; a `[[` without its `]]` and an action that is not a field chain
   * are compile errors.
   */
  function Parse(src: string): (r: Result<Program, string>)
    ensures r.Failure? ==> r.error == ErrUnclosedAction || ErrBadAction <= r.error
    decreases |src|
  {
    match Split(src)
    case Plain => Success(if |src| == 0 then [] else [Text(src)])
    case Unclosed => Failure(ErrUnclosedAction)
    case Action(before, source, after) =>
      match FieldPath(source)
      case None => Failure(ErrBadAction + source)
      case Some(path) =>
        match Parse(after)
        case Failure(e) => Failure(e)
        case Success(tail) => Success(Prefix(before, source, path, tail))
  }

  function Join(path: seq<string>): string
    decreases |path|
  {
    if path == [] then [] else "." + path[0] + Join(path[1..])
  }

  /**
   * The value of a field of the rendering context. Naming a certificate
   * field when the request carries no certificate is an execution error.
   */
  function Lookup(path: seq<string>, data: Plugin.Data): (r: Result<string, string>)
    ensures r.Success? <==> path in RequestFields || (path in CertFields && data.cert.Some?)
  {
    if path == ["Request", "Host"] then Success(data.request.host)
    else if path == ["Request", "Method"] then Success(data.request.httpMethod)
    else if path == ["Request", "URL"] then Success(data.request.url)
    else if path in CertFields then
      match data.cert
      case None => Failure(ErrNoCertificate)
      case Some(c) =>
        Success(if path == ["Cert", "Subject", "CommonName"] then c.subject.commonName
                else if path == ["Cert", "Issuer", "CommonName"] then c.issuer.commonName
                else c.serialNumber)
    else Failure(ErrUnknownField + Join(path))
  }

  function Eval(piece: Piece, data: Plugin.Data): Result<string, string>
  {
    match piece
    case Text(t) => Success(t)
    case Field(_, path) => Lookup(path, data)
  }

  /** `Template.Execute`: the pieces' values in order; the first failing field wins. */
  function Execute(p: Program, data: Plugin.Data): (r: Result<string, string>)
    ensures r.Success? <==> forall i :: 0 <= i < |p| ==> Eval(p[i], data).Success?
    ensures r.Failure? ==>
              exists i :: 0 <= i < |p| && Eval(p[i], data) == Failure(r.error)
                       && forall j :: 0 <= j < i ==> Eval(p[j], data).Success?
    decreases |p|
  {
    if p == [] then Success([])
    else
      match Eval(p[0], data)
      case Failure(e) => Failure(e)
      case Success(s) =>
        match Execute(p[1..], data)
        case Failure(e) => Failure(e)
        case Success(t) => Success(s + t)
  }

  /** The program a successful run amounts to: every piece replaced by the literal text of its value. */
  function Substitute(p: Program, data: Plugin.Data): (q: Program)
    requires forall i :: 0 <= i < |p| ==> Eval(p[i], data).Success?
    ensures |q| == |p| && forall i :: 0 <= i < |p| ==> q[i] == Text(Eval(p[i], data).value)
    decreases |p|
  {
    if |p| == 0 then []
    else [Text(Eval(p[0], data).value)] + Substitute(p[1..], data)
  }

  /**
   * A successful execution substitutes the referenced fields literally: its
   * output is the template text with every action replaced by its value.
   */
  lemma {:induction false} ExecuteSubstitute(p: Program, data: Plugin.Data)
    requires Execute(p, data).Success?
    ensures Execute(p, data).value == Unparse(Substitute(p, data))
    decreases |p|
  {
    if |p| > 0 {
      ExecuteSubstitute(p[1..], data);
      UnparseCons(Text(Eval(p[0], data).value), Substitute(p[1..], data));
    }
  }

  /** The engine the plugin is built with, over a given `url.QueryEscape`. */
  function Engine(queryEscape: string -> string): Plugin.Engine<Program>
  {
    Plugin.Engine(Parse, Execute, queryEscape)
  }

  lemma {:induction false} UnparseAppend(a: Program, b: Program)
    ensures Unparse(a + b) == Unparse(a) + Unparse(b)
    decreases |a|
  {
    if a != [] {
      assert (a + b)[0] == a[0] && (a + b)[1..] == a[1..] + b;
      UnparseAppend(a[1..], b);
    } else {
      assert a + b == b;
    }
  }

  /** The text from `from` up to the first occurrence of a doubled delimiter neither holds nor ends with half of it. */
  lemma BeforeFirst(s: string, d: string, from: nat)
    requires |d| == 2 && d[0] == d[1] && from <= |s| && Find(s, d, from) < |s|
    ensures var k := Find(s, d, from); Free(s[from..k], d) && !EndsWith(s[from..k], d[0])
  {
    var k := Find(s, d, from);
    var pre := s[from..k];
    FindFirst(s, d, from);
    forall j | 0 <= j <= |pre| ensures !MatchAt(pre, d, j) {
      if j + 1 < |pre| {
        assert !MatchAt(s, d, from + j);
      }
    }
    if k > from {
      assert !MatchAt(s, d, k - 1);
    }
  }

  /** What `Split` cuts out holds no delimiter and ends with no half of the one that follows it. */
  lemma SplitSound(src: string)
    ensures Split(src).Plain? ==> Free(src, LeftDelim)
    ensures Split(src).Action? ==>
              && src == Split(src).before + LeftDelim + Split(src).source + RightDelim + Split(src).after
              && Free(Split(src).before, LeftDelim) && !EndsWith(Split(src).before, '[')
              && Free(Split(src).source, RightDelim) && !EndsWith(Split(src).source, ']')
  {
    FindFirst(src, LeftDelim, 0);
    var i := Find(src, LeftDelim, 0);
    if i < |src| {
      BeforeFirst(src, LeftDelim, 0);
      assert src[0..i] == src[..i];
      var j := Find(src, RightDelim, i + 2);
      if j < |src| {
        BeforeFirst(src, RightDelim, i + 2);
        assert src == src[..i] + LeftDelim + src[i + 2..j] + RightDelim + src[j + 2..] by {
          assert src[i..i + 2] == LeftDelim;
          assert src[j..j + 2] == RightDelim;
          assert src == src[..i] + src[i..i + 2] + src[i + 2..j] + src[j..j + 2] + src[j + 2..];
        }
      }
    }
  }

  /** A source without `[[` is a single cut of plain text. */
  lemma SplitText(t: string)
    requires Free(t, LeftDelim)
    ensures Split(t) == Plain
  {
    FindFirst(t, LeftDelim, 0);
  }

  /** Text and an action placed in front of a source are cut off again. */
  lemma SplitAction(t: string, source: string, rest: string)
    requires Free(t, LeftDelim) && !EndsWith(t, '[')
    requires Free(source, RightDelim) && !EndsWith(source, ']')
    ensures Split(t + LeftDelim + source + RightDelim + rest) == Action(t, source, rest)
  {
    var s := t + LeftDelim + source + RightDelim + rest;
    var i := |t|;
    var j := |t| + 2 + |source|;
    assert MatchAt(s, LeftDelim, i);
    forall k | 0 <= k < i ensures !MatchAt(s, LeftDelim, k) {
      if k + 1 < i {
        assert !MatchAt(t, LeftDelim, k);
      }
    }
    FindAt(s, LeftDelim, 0, i);
    assert MatchAt(s, RightDelim, j);
    forall k | i + 2 <= k < j ensures !MatchAt(s, RightDelim, k) {
      if k + 1 < j {
        assert !MatchAt(source, RightDelim, k - i - 2);
      }
    }
    FindAt(s, RightDelim, i + 2, j);
    assert s[..i] == t;
    assert s[i + 2..j] == source;
    assert s[j + 2..] == rest;
  }

  lemma UnparseCons(piece: Piece, q: Program)
    ensures Unparse([piece] + q)
         == (match piece
             case Text(t) => t
             case Field(source, _) => LeftDelim + source + RightDelim) + Unparse(q)
  {
    assert ([piece] + q)[0] == piece && ([piece] + q)[1..] == q;
  }

  lemma PrefixSound(before: string, source: string, path: seq<string>, tail: Program)
    requires Free(before, LeftDelim) && !EndsWith(before, '[')
    requires Free(source, RightDelim) && !EndsWith(source, ']') && FieldPath(source) == Some(path)
    requires Canonical(tail)
    ensures Unparse(Prefix(before, source, path, tail)) == before + LeftDelim + source + RightDelim + Unparse(tail)
    ensures Canonical(Prefix(before, source, path, tail))
  {
    var field := [Field(source, path)] + tail;
    UnparseCons(Field(source, path), tail);
    assert field[1..] == tail;
    if |before| > 0 {
      assert [Text(before), Field(source, path)] + tail == [Text(before)] + field;
      UnparseCons(Text(before), field);
      assert ([Text(before)] + field)[1..] == field;
    }
  }

  /** Compiling loses nothing: a compiled template is canonical and prints back to its source. */
  lemma {:induction false} ParseSound(src: string)
    ensures Parse(src).Success? ==> Unparse(Parse(src).value) == src && Canonical(Parse(src).value)
    decreases |src|
  {
    SplitSound(src);
    match Split(src)
    case Plain =>
      if |src| > 0 {
        UnparseCons(Text(src), []);
        assert [Text(src)] + [] == [Text(src)];
      }
    case Unclosed =>
    case Action(t, source, after) =>
      if FieldPath(source).Some? {
        ParseSound(after);
        if Parse(after).Success? {
          PrefixSound(t, source, FieldPath(source).value, Parse(after).value);
        }
      }
  }

  /** Text and an action in front of a source compile to their pieces in front of the source's program. */
  lemma ParsePrefix(t: string, source: string, path: seq<string>, u: string, q: Program)
    requires Free(t, LeftDelim) && !EndsWith(t, '[')
    requires Free(source, RightDelim) && !EndsWith(source, ']') && FieldPath(source) == Some(path)
    requires Parse(u) == Success(q)
    ensures Parse(t + LeftDelim + source + RightDelim + u) == Success(Prefix(t, source, path, q))
  {
    SplitAction(t, source, u);
  }

  /** Compiling is the inverse of printing on canonical templates. */
  lemma {:induction false} ParseUnparse(p: Program)
    requires Canonical(p)
    ensures Parse(Unparse(p)) == Success(p)
    decreases |p|
  {
    if |p| == 0 {
      SplitText([]);
    } else if p[0].Field? {
      var q := p[1..];
      assert p == Prefix([], p[0].source, p[0].path, q);
      PrefixSound([], p[0].source, p[0].path, q);
      assert [] + LeftDelim + p[0].source == LeftDelim + p[0].source;
      ParseUnparse(q);
      ParsePrefix([], p[0].source, p[0].path, Unparse(q), q);
    } else if |p| == 1 {
      var t := p[0].text;
      assert p == [Text(t)];
      UnparseCons(Text(t), []);
      assert Unparse(p) == t;
      SplitText(t);
    } else {
      var q := p[2..];
      assert p[1..] == [p[1]] + q;
      assert p == Prefix(p[0].text, p[1].source, p[1].path, q);
      PrefixSound(p[0].text, p[1].source, p[1].path, q);
      ParseUnparse(q);
      ParsePrefix(p[0].text, p[1].source, p[1].path, Unparse(q), q);
    }
  }

  /** A program of literal text only executes to the text it was compiled from. */
  lemma {:induction false} ExecuteText(p: Program, data: Plugin.Data)
    requires forall i :: 0 <= i < |p| ==> p[i].Text?
    ensures Execute(p, data) == Success(Unparse(p))
    decreases |p|
  {
    if |p| > 0 {
      ExecuteText(p[1..], data);
    }
  }

  /** A header source without `[[` is copied into the header as it is. */
  lemma RenderText(queryEscape: string -> string, source: string, data: Plugin.Data)
    requires Free(source, LeftDelim)
    ensures Plugin.Render(Engine(queryEscape), source, data) == Success(source)
  {
    SplitText(source);
    var engine := Engine(queryEscape);
    var p := if |source| == 0 then [] else [Text(source)];
    assert engine.parse(source) == Success(p);
    if |source| > 0 {
      UnparseCons(Text(source), []);
      assert [Text(source)] + [] == [Text(source)];
      assert source + [] == source;
    } else {
      assert source == [];
    }
    assert Unparse(p) == source;
    ExecuteText(p, data);
    assert engine.execute(p, data) == Success(source);
  }

  /**
   * Without a peer certificate a template renders exactly when every field it
   * names is a request field.
   */
  lemma WithoutCertificate(p: Program, data: Plugin.Data)
    requires data.cert.None?
    ensures Execute(p, data).Success? <==> forall i :: 0 <= i < |p| && p[i].Field? ==> p[i].path in RequestFields
  {
    forall i | 0 <= i < |p| && p[i].Field?
      ensures Eval(p[i], data).Success? <==> p[i].path in RequestFields
    {
    }
  }

  lemma {:induction false} SkipChar(a: string, b: string, c: char)
    requires c !in a
    ensures IndexOfChar(a + b, c) == |a| + IndexOfChar(b, c)
    decreases |a|
  {
    if |a| > 0 {
      assert (a + b)[0] == a[0] && (a + b)[1..] == a[1..] + b;
      SkipChar(a[1..], b, c);
    } else {
      assert a + b == b;
    }
  }

  /** A lone identifier is a one-step field chain. */
  lemma PathLast(head: string)
    requires IsIdent(head) && '.' !in head
    ensures Path(head) == Some([head])
  {
    SkipChar(head, [], '.');
    assert head + [] == head;
  }

  /** An identifier, a dot and a chain form the longer chain. */
  lemma PathNext(head: string, rest: string, tail: seq<string>)
    requires IsIdent(head) && '.' !in head && Path(rest) == Some(tail)
    ensures Path(head + "." + rest) == Some([head] + tail)
  {
    var s := head + "." + rest;
    assert s == head + ("." + rest);
    SkipChar(head, "." + rest, '.');
    assert s[..|head|] == head;
    assert s[|head| + 1..] == rest;
  }

  /** An action text of a dot and a chain, with no surrounding spaces, names that chain. */
  lemma FieldPathOf(body: string)
    requires |body| > 0 && !IsSpace(body[|body| - 1])
    ensures FieldPath("." + body) == Path(body)
  {
    var s := "." + body;
    assert TrimLeft(s) == s;
    assert s[|s| - 1] == body[|body| - 1];
    assert TrimRight(s) == s;
    assert s[1..] == body;
  }

  /** A source that is one field action compiles to that action alone. */
  lemma ParseOneField(source: string, path: seq<string>)
    requires Free(source, RightDelim) && !EndsWith(source, ']') && FieldPath(source) == Some(path)
    ensures Parse(LeftDelim + source + RightDelim) == Success([Field(source, path)])
  {
    var e: string := [];
    assert e + LeftDelim + source + RightDelim + e == LeftDelim + source + RightDelim;
    assert Prefix(e, source, path, []) == [Field(source, path)];
    SplitText(e);
    ParsePrefix(e, source, path, e, []);
  }

  /** A source of literal text and then one field action compiles to those two pieces. */
  lemma ParseTextField(t: string, source: string, path: seq<string>)
    requires |t| > 0 && Free(t, LeftDelim) && !EndsWith(t, '[')
    requires Free(source, RightDelim) && !EndsWith(source, ']') && FieldPath(source) == Some(path)
    ensures Parse(t + LeftDelim + source + RightDelim) == Success([Text(t), Field(source, path)])
  {
    var e: string := [];
    assert t + LeftDelim + source + RightDelim + e == t + LeftDelim + source + RightDelim;
    assert Prefix(t, source, path, []) == [Text(t), Field(source, path)];
    SplitText(e);
    ParsePrefix(t, source, path, e, []);
  }
}
