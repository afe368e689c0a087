/**
 Message templates: plain text with `{name}` holes. Two scanners read them, one fills
 the holes and one lists them; a template tree is what both are compared with.
 */
module Templates {
  import opened Wrappers

  /** A text up to its last hole, and the tail behind it. */
  datatype Template = Tail(text: string) | Hole(text: string, name: string, rest: Template)

  /** strings.IndexByte. */
  function IndexOf(text: string, c: char): (i: int)
    ensures -1 <= i < |text|
  {
    IndexFrom(text, c, 0)
  }

  function IndexFrom(text: string, c: char, from: nat): (i: int)
    requires from <= |text|
    ensures -1 <= i < |text|
    decreases |text| - from
  {
    if from == |text| then -1 else if text[from] == c then from else IndexFrom(text, c, from + 1)
  }

  lemma {:induction false} IndexFromIsFirst(text: string, c: char, from: nat)
    requires from <= |text|
    ensures var i := IndexFrom(text, c, from);
            if i < 0 then forall j :: from <= j < |text| ==> text[j] != c
            else from <= i && text[i] == c && forall j :: from <= j < i ==> text[j] != c
    decreases |text| - from
  {
    if from < |text| && text[from] != c {
      IndexFromIsFirst(text, c, from + 1);
    }
  }

  /** The index is that of the first occurrence, and absent means nowhere. */
  lemma IndexIsFirst(text: string, c: char)
    ensures IndexOf(text, c) < 0 <==> c !in text
    ensures var i := IndexOf(text, c);
            i >= 0 ==> c !in text[..i] && text == text[..i] + ([c] + text[i + 1..])
  {
    IndexFromIsFirst(text, c, 0);
    var i := IndexOf(text, c);
    if i >= 0 {
      assert text[i] in text;
    }
  }

  predicate Proper(t: Template) {
    match t
    case Tail(text) => '{' !in text
    case Hole(text, name, rest) => '{' !in text && '}' !in name && Proper(rest)
  }

  function Write(t: Template): (r: string) {
    match t
    case Tail(text) => text
    case Hole(text, name, rest) => text + "{" + name + "}" + Write(rest)
  }

  function Names(t: Template): (r: set<string>) {
    match t
    case Tail(_) => {}
    case Hole(_, name, rest) => {name} + Names(rest)
  }

  function Fill(t: Template, values: map<string, string>): (r: string)
    requires Names(t) <= values.Keys
  {
    match t
    case Tail(text) => text
    case Hole(text, name, rest) => text + values[name] + Fill(rest, values)
  }

  /** The first hole of a text, with the text before and behind it. */
  datatype Cut = NoHole | Unclosed | Found(before: string, name: string, behind: string)

  function FirstHole(text: string): (cut: Cut)
    ensures cut.Found? ==> |cut.behind| < |text|
  {
    var start := IndexOf(text, '{');
    if start < 0 then NoHole
    else
      var end := IndexOf(text[start + 1..], '}');
      if end < 0 then Unclosed else Found(text[..start], text[start + 1..][..end], text[start + 1..][end + 1..])
  }

  lemma NoHoleIff(text: string)
    ensures FirstHole(text).NoHole? <==> '{' !in text
  {
    IndexIsFirst(text, '{');
  }

  lemma CutSpells(text: string, before: string, name: string, behind: string)
    requires FirstHole(text) == Found(before, name, behind)
    ensures '{' !in before && '}' !in name && text == before + "{" + name + "}" + behind
  {
    IndexIsFirst(text, '{');
    IndexIsFirst(text[IndexOf(text, '{') + 1..], '}');
    Regroup(before, name, behind);
  }

  lemma Regroup(a: string, b: string, c: string)
    ensures a + (['{'] + (b + (['}'] + c))) == a + "{" + b + "}" + c
  {
  }

  lemma FirstAfter(before: string, c: char, behind: string)
    requires c !in before
    ensures IndexOf(before + [c] + behind, c) == |before|
  {
    var text := before + [c] + behind;
    assert text[|before|] == c;
    assert forall j :: 0 <= j < |before| ==> text[j] == before[j];
    IndexFromIsFirst(text, c, 0);
  }

  lemma SpelledIsCut(before: string, name: string, behind: string)
    requires '{' !in before && '}' !in name
    ensures FirstHole(before + "{" + name + "}" + behind) == Found(before, name, behind)
  {
    var after := name + ['}'] + behind;
    var text := before + "{" + name + "}" + behind;
    assert text == before + ['{'] + after;
    FirstAfter(before, '{', after);
    FirstAfter(name, '}', behind);
    assert text[|before| + 1..] == after;
  }

  /** The template a text spells; a hole that is never closed spells none. */
  function Read(text: string): (r: Option<Template>)
    decreases |text|
  {
    match FirstHole(text)
    case NoHole => Some(Tail(text))
    case Unclosed => None
    case Found(before, name, behind) =>
      match Read(behind)
      case Some(rest) => Some(Hole(before, name, rest))
      case None => None
  }

  lemma {:induction false} ReadSpells(text: string)
    requires Read(text).Some?
    ensures Proper(Read(text).value) && Write(Read(text).value) == text
    decreases |text|
  {
    NoHoleIff(text);
    var cut := FirstHole(text);
    if cut.Found? {
      CutSpells(text, cut.before, cut.name, cut.behind);
      ReadSpells(cut.behind);
    }
  }

  lemma {:induction false} SpelledIsRead(t: Template)
    requires Proper(t)
    ensures Read(Write(t)) == Some(t)
  {
    match t
    case Tail(text) =>
      NoHoleIff(text);
    case Hole(text, name, rest) =>
      SpelledIsRead(rest);
      SpelledIsCut(text, name, Write(rest));
  }

  /** Reading and writing are inverse: one template per readable text. */
  lemma ReadIffSpelled(text: string, t: Template)
    ensures Read(text) == Some(t) <==> Proper(t) && Write(t) == text
  {
    if Read(text) == Some(t) {
      ReadSpells(text);
    }
    if Proper(t) {
      SpelledIsRead(t);
    }
  }

  datatype Error = Malformed | EmptyName | MissingMessage | MissingValue(name: string) | NotNumeric

  /** What rendering reports, hole by hole. */
  function Render(text: string, values: map<string, string>): (r: Result<string, Error>)
    decreases |text|
  {
    match FirstHole(text)
    case NoHole => Ok(text)
    case Unclosed => Err(Malformed)
    case Found(before, name, behind) =>
      if name !in values then Err(MissingValue(name)) else Prepend(before + values[name], Render(behind, values))
  }

  function Prepend(front: string, r: Result<string, Error>): (result: Result<string, Error>) {
    match r
    case Ok(text) => Ok(front + text)
    case Err(e) => Err(e)
  }

  lemma PrependTwice(a: string, b: string, r: Result<string, Error>)
    ensures Prepend(a, Prepend(b, r)) == Prepend(a + b, r)
  {
    if r.Ok? {
      assert a + (b + r.value) == a + b + r.value;
    }
  }

  lemma PrependNothing(r: Result<string, Error>)
    ensures Prepend("", r) == r
  {
    if r.Ok? {
      assert "" + r.value == r.value;
    }
  }

  /** Rendering succeeds iff the text is a template whose every hole has a value. */
  lemma {:induction false} RenderFills(text: string, values: map<string, string>)
    ensures Render(text, values).Ok? <==> Read(text).Some? && Names(Read(text).value) <= values.Keys
    ensures Render(text, values).Ok? ==> Render(text, values).value == Fill(Read(text).value, values)
    ensures Read(text).Some? && Render(text, values).Err? ==>
              && Render(text, values).error.MissingValue?
              && Render(text, values).error.name in Names(Read(text).value) - values.Keys
    decreases |text|
  {
    var cut := FirstHole(text);
    if cut.Found? {
      RenderFills(cut.behind, values);
    }
  }

  /** The names of the holes, in order. */
  function HoleList(t: Template): (r: seq<string>) {
    match t
    case Tail(_) => []
    case Hole(_, name, rest) => [name] + HoleList(rest)
  }

  /** The first of these names that has no value. */
  ghost predicate FirstWithout(names: seq<string>, values: map<string, string>, name: string) {
    exists i :: IsFirstWithout(names, values, name, i)
  }

  predicate IsFirstWithout(names: seq<string>, values: map<string, string>, name: string, i: int) {
    0 <= i < |names| && names[i] == name && name !in values && forall other :: other in names[..i] ==> other in values
  }

  lemma FirstWithoutStep(first: string, names: seq<string>, values: map<string, string>, name: string)
    ensures FirstWithout([first] + names, values, name)
       <==> if first in values then FirstWithout(names, values, name) else name == first
  {
    var longer := [first] + names;
    if first !in values {
      assert IsFirstWithout(longer, values, first, 0);
    }
    forall i | IsFirstWithout(longer, values, name, i)
      ensures if first in values then FirstWithout(names, values, name) else name == first
    {
      if i > 0 {
        assert longer[..i] == [first] + names[..i - 1];
        assert first in longer[..i];
        assert IsFirstWithout(names, values, name, i - 1);
      }
    }
    forall i | first in values && IsFirstWithout(names, values, name, i)
      ensures IsFirstWithout(longer, values, name, i + 1)
    {
      assert longer[..i + 1] == [first] + names[..i];
    }
  }

  /** The first hole that has no value. */
  ghost predicate FirstMissing(t: Template, values: map<string, string>, name: string) {
    FirstWithout(HoleList(t), values, name)
  }

  /** Rendering a readable text reports the first hole without a value, and nothing else. */
  lemma {:induction false} RenderReportsFirst(text: string, values: map<string, string>, name: string)
    requires Read(text).Some?
    ensures Render(text, values) == Err(MissingValue(name)) <==> FirstMissing(Read(text).value, values, name)
    ensures Render(text, values).Err? ==> Render(text, values).error.MissingValue?
    decreases |text|
  {
    var cut := FirstHole(text);
    if cut.Found? {
      RenderReportsFirst(cut.behind, values, name);
      FirstWithoutStep(cut.name, HoleList(Read(cut.behind).value), values, name);
    }
  }

  /** interpolate: one pass that copies plain text and looks the names up. */
  method Interpolate(message: string, values: map<string, string>) returns (r: Result<string, Error>)
    ensures r == Render(message, values)
  {
    var text, output := message, "";
    PrependNothing(Render(message, values));
    while |text| > 0
      invariant Render(message, values) == Prepend(output, Render(text, values))
      decreases |text|
    {
      ghost var done := output;
      var start := IndexOf(text, '{');
      if start < 0 {
        return Ok(output + text);
      }
      output := output + text[..start];
      var end := IndexOf(text[start + 1..], '}');
      if end < 0 {
        return Err(Malformed);
      }
      var name := text[start + 1..][..end];
      if name !in values {
        return Err(MissingValue(name));
      }
      ghost var rest := Render(text[start + 1..][end + 1..], values);
      PrependTwice(done, text[..start] + values[name], rest);
      assert done + (text[..start] + values[name]) == output + values[name];
      output := output + values[name];
      text := text[start + 1..][end + 1..];
    }
    assert text == "" && output + "" == output;
    return Ok(output);
  }

  /** A text the catalog accepts: a template without an empty name. */
  predicate Readable(text: string) {
    Read(text).Some? && "" !in Names(Read(text).value)
  }

  function HoleNames(text: string): (r: set<string>)
    requires Read(text).Some?
  {
    Names(Read(text).value)
  }

  /** placeholders: the other scanner, which also refuses empty names. */
  method Placeholders(message: string) returns (r: Result<set<string>, Error>)
    ensures r.Ok? <==> Readable(message)
    ensures r.Ok? ==> r.value == HoleNames(message)
  {
    var text, names := message, {};
    while |text| > 0
      invariant Read(message).Some? <==> Read(text).Some?
      invariant Read(text).Some? ==> HoleNames(message) == names + HoleNames(text)
      invariant "" !in names
      decreases |text|
    {
      var start := IndexOf(text, '{');
      if start < 0 {
        break;
      }
      var end := IndexOf(text[start + 1..], '}');
      if end < 0 {
        return Err(Malformed);
      }
      var name := text[start + 1..][..end];
      if name == "" {
        return Err(EmptyName);
      }
      names := names + {name};
      text := text[start + 1..][end + 1..];
    }
    NoHoleIff(text);
    return Ok(names);
  }
}
