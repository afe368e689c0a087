/**
 Language catalogs: the validation of one message, the completeness check over all
 languages, and translation. Together they decide, before any request is served, that
 a translation that works in one language works in every language.
 */
module Catalog {
  import opened Wrappers
  import opened Templates
  import Sets

  datatype Message = Message(text: string, one: string, other: string)

  type Messages = map<string, Message>

  datatype Catalogs = Catalogs(messages: map<string, Messages>)

  const DEFAULT := "en"
  const CODES := ["en", "hu"]

  /** strconv.ParseFloat of the count, as far as the plural forms look at it. */
  datatype Count = NotANumber | One | Many

  type CountReader = string -> Count

  /** Lower-case letters, digits, `_` and `.`, starting with a letter. */
  predicate ValidId(id: string) {
    && id != "" && 'a' <= id[0] <= 'z'
    && forall i :: 0 <= i < |id| ==> IdCharacter(id[i])
  }

  predicate IdCharacter(c: char) {
    'a' <= c <= 'z' || '0' <= c <= '9' || c == '_' || c == '.'
  }

  method ValidMessageId(id: string) returns (ok: bool)
    ensures ok == ValidId(id)
  {
    if id == "" {
      return false;
    }
    for index := 0 to |id|
      invariant forall i :: 0 <= i < index ==> IdCharacter(id[i])
      invariant index > 0 ==> id[0] != '.'
    {
      var c := id[index];
      if !('a' <= c <= 'z' || '0' <= c <= '9' || c == '_' || (c == '.' && index > 0)) {
        return false;
      }
    }
    return 'a' <= id[0] <= 'z';
  }

  method SameStrings(left: set<string>, right: set<string>) returns (same: bool)
    ensures same == (left == right)
  {
    if |left| != |right| {
      return false;
    }
    var rest := left;
    while rest != {}
      invariant rest <= left && left - rest <= right
    {
      var value :| value in rest;
      if value !in right {
        return false;
      }
      rest := rest - {value};
    }
    Sets.SubsetBound(left, right);
    return true;
  }

  predicate Plain(m: Message) {
    m.text != "" && m.one == "" && m.other == ""
  }

  predicate Plural(m: Message) {
    m.text == "" && m.one != "" && m.other != ""
  }

  /** Either one plain text or two plural forms, readable and with the same holes. */
  predicate ValidMessage(id: string, m: Message) {
    && ValidId(id)
    && (Plain(m) || Plural(m))
    && (Plain(m) ==> Readable(m.text))
    && (Plural(m) ==> Readable(m.one) && Readable(m.other) && HoleNames(m.one) == HoleNames(m.other))
  }

  lemma EmptyIsReadable()
    ensures Readable("")
  {
  }

  method ValidateMessage(id: string, m: Message) returns (ok: bool)
    ensures ok == ValidMessage(id, m)
  {
    EmptyIsReadable();
    var valid := ValidMessageId(id);
    if !valid {
      return false;
    }
    var plain, plural := m.text != "", m.one != "" || m.other != "";
    if plain == plural || (plural && (m.one == "" || m.other == "")) {
      return false;
    }
    var text := Placeholders(m.text);
    if text.Err? {
      return false;
    }
    if plural {
      var one := Placeholders(m.one);
      if one.Err? {
        return false;
      }
      var other := Placeholders(m.other);
      if other.Err? {
        return false;
      }
      var same := SameStrings(one.value, other.value);
      if !same {
        return false;
      }
    }
    return true;
  }

  predicate SameHoles(left: string, right: string) {
    Readable(left) && Readable(right) && HoleNames(left) == HoleNames(right)
  }

  /** Both plain with the same holes, or both not plain with the same holes form by form. */
  predicate SameShape(expected: Message, actual: Message) {
    && (expected.text == "" <==> actual.text == "")
    && (expected.text != "" ==> SameHoles(expected.text, actual.text))
    && (expected.text == "" ==> SameHoles(expected.one, actual.one) && SameHoles(expected.other, actual.other))
  }

  method CompareHoles(expected: string, actual: string) returns (same: bool)
    ensures same == SameHoles(expected, actual)
  {
    var left := Placeholders(expected);
    if left.Err? {
      return false;
    }
    var right := Placeholders(actual);
    if right.Err? {
      return false;
    }
    same := SameStrings(left.value, right.value);
  }

  method MatchingMessageShape(expected: Message, actual: Message) returns (ok: bool)
    ensures ok == SameShape(expected, actual)
  {
    if (expected.text == "") != (actual.text == "") {
      return false;
    }
    if expected.text != "" {
      ok := CompareHoles(expected.text, actual.text);
      return;
    }
    ok := CompareHoles(expected.one, actual.one);
    if ok {
      ok := CompareHoles(expected.other, actual.other);
    }
  }

  /** Every language has exactly the default's messages, each of the same shape. */
  predicate Complete(c: Catalogs) {
    && DEFAULT in c.messages
    && forall language :: language in CODES ==> SameMessages(c, language)
  }

  predicate SameMessages(c: Catalogs, language: string)
    requires DEFAULT in c.messages
  {
    && language in c.messages
    && c.messages[language].Keys == c.messages[DEFAULT].Keys
    && forall id :: id in c.messages[DEFAULT] ==> SameShape(c.messages[DEFAULT][id], c.messages[language][id])
  }

  /** The check counts the messages and looks the default's ids up; that is enough. */
  method CompareMessages(defaults: Messages, messages: Messages) returns (same: bool)
    ensures same <==> messages.Keys == defaults.Keys && forall id :: id in defaults ==>
            SameShape(defaults[id], messages[id])
  {
    assert |messages.Keys| == |messages| && |defaults.Keys| == |defaults|;
    if |messages| != |defaults| {
      return false;
    }
    var rest := defaults.Keys;
    while rest != {}
      invariant rest <= defaults.Keys
      invariant forall id :: id in defaults.Keys - rest ==> id in messages && SameShape(defaults[id], messages[id])
    {
      var id :| id in rest;
      if id !in messages {
        assert id in defaults.Keys && id !in messages.Keys;
        return false;
      }
      var matching := MatchingMessageShape(defaults[id], messages[id]);
      if !matching {
        return false;
      }
      rest := rest - {id};
    }
    assert defaults.Keys <= messages.Keys;
    Sets.SubsetBound(defaults.Keys, messages.Keys);
    return true;
  }

  method ValidateCompleteness(c: Catalogs) returns (ok: bool)
    ensures ok == Complete(c)
  {
    if DEFAULT !in c.messages {
      return false;
    }
    for i := 0 to |CODES|
      invariant forall k :: 0 <= k < i ==> SameMessages(c, CODES[k])
    {
      var language := CODES[i];
      assert language in CODES;
      if language !in c.messages {
        return false;
      }
      var same := CompareMessages(c.messages[DEFAULT], c.messages[language]);
      if !same {
        assert !SameMessages(c, language);
        return false;
      }
    }
    return true;
  }

  /** The message of a language, or the default's. */
  function Find(c: Catalogs, language: string, id: string): (r: Option<Message>) {
    if language in c.messages && id in c.messages[language] then Some(c.messages[language][id])
    else if DEFAULT in c.messages && id in c.messages[DEFAULT] then Some(c.messages[DEFAULT][id])
    else None
  }

  function Form(reader: CountReader, m: Message, values: map<string, string>): (r: Result<string, Error>) {
    if m.text != "" then Render(m.text, values)
    else if "count" !in values then Err(MissingValue("count"))
    else match reader(values["count"])
      case NotANumber => Err(NotNumeric)
      case One => Render(m.one, values)
      case Many => Render(m.other, values)
  }

  function Translation(reader: CountReader, c: Catalogs, language: string, id: string, values: map<string, string>):
    (r: Result<string, Error>)
  {
    match Find(c, language, id)
    case Some(m) => Form(reader, m, values)
    case None => Err(MissingMessage)
  }

  method Translate(reader: CountReader, c: Catalogs, language: string, id: string, values: map<string, string>)
    returns (r: Result<string, Error>)
    ensures r == Translation(reader, c, language, id, values)
  {
    var found := Find(c, language, id);
    if found.None? {
      return Err(MissingMessage);
    }
    var m := found.value;
    var text := m.text;
    if text == "" {
      if "count" !in values {
        return Err(MissingValue("count"));
      }
      var parsed := reader(values["count"]);
      if parsed.NotANumber? {
        return Err(NotNumeric);
      }
      text := if parsed.One? then m.one else m.other;
    }
    r := Interpolate(text, values);
  }

  /** What loading checks: supported languages, valid messages and a default catalog. */
  predicate Loaded(c: Catalogs) {
    && DEFAULT in c.messages
    && (forall language :: language in c.messages ==> language in CODES)
    && forall language, id :: language in c.messages && id in c.messages[language] ==>
        ValidMessage(id, c.messages[language][id])
  }

  /** The names a message needs, the same in both plural forms. */
  function Needed(m: Message): (r: set<string>)
    requires Readable(m.text) && Readable(m.one)
  {
    if m.text != "" then HoleNames(m.text) else HoleNames(m.one)
  }

  /** What the caller must supply for a message, seen in the default language alone. */
  predicate Translatable(reader: CountReader, c: Catalogs, id: string, values: map<string, string>)
    requires Loaded(c)
  {
    && id in c.messages[DEFAULT]
    && var m := c.messages[DEFAULT][id];
       EmptyIsReadable();
       && Needed(m) <= values.Keys
       && (m.text == "" ==> "count" in values && !reader(values["count"]).NotANumber?)
  }

  lemma FormSucceedsIff(reader: CountReader, id: string, m: Message, values: map<string, string>)
    requires ValidMessage(id, m)
    ensures Readable(m.text) && Readable(m.one)
    ensures Form(reader, m, values).Ok?
       <==> Needed(m) <= values.Keys && (m.text == "" ==> "count" in values && !reader(values["count"]).NotANumber?)
  {
    EmptyIsReadable();
    if m.text != "" {
      RenderFills(m.text, values);
    } else {
      RenderFills(m.one, values);
      RenderFills(m.other, values);
    }
  }

  lemma SameShapeNeedsTheSame(id: string, a: Message, b: Message)
    requires ValidMessage(id, a) && ValidMessage(id, b) && SameShape(a, b)
    ensures Readable(a.text) && Readable(a.one) && Readable(b.text) && Readable(b.one)
    ensures Needed(a) == Needed(b) && (a.text == "" <==> b.text == "")
  {
    EmptyIsReadable();
  }

  lemma ShapeOfItself(id: string, m: Message)
    requires ValidMessage(id, m)
    ensures SameShape(m, m)
  {
    EmptyIsReadable();
  }

  /** Whatever language is asked for, the message found has the default's shape. */
  lemma FoundHasDefaultShape(c: Catalogs, language: string, id: string)
    requires Loaded(c) && Complete(c)
    ensures Find(c, language, id).Some? <==> id in c.messages[DEFAULT]
    ensures id in c.messages[DEFAULT] ==>
      var expected, m := c.messages[DEFAULT][id], Find(c, language, id).value;
      ValidMessage(id, expected) && ValidMessage(id, m) && SameShape(expected, m)
  {
    if language in c.messages {
      assert SameMessages(c, language);
    }
    if id in c.messages[DEFAULT] {
      ShapeOfItself(id, c.messages[DEFAULT][id]);
    }
  }

  /**
   In complete catalogs a translation succeeds in a language iff the default language's
   message exists and the values cover it, so it succeeds in all languages or in none.
   The language asked for may be any text; unknown ones fall back to the default.
   */
  lemma TranslatesEverywhereOrNowhere(
    reader: CountReader, c: Catalogs, language: string, id: string, values: map<string, string>)
    requires Loaded(c) && Complete(c)
    ensures Translation(reader, c, language, id, values).Ok? <==> Translatable(reader, c, id, values)
  {
    FoundHasDefaultShape(c, language, id);
    if id in c.messages[DEFAULT] {
      var expected, m := c.messages[DEFAULT][id], Find(c, language, id).value;
      FormSucceedsIff(reader, id, m, values);
      SameShapeNeedsTheSame(id, expected, m);
    }
  }

  /** The text shown is the language's own form for the count, with its holes filled. */
  lemma TranslationFillsTheForm(
    reader: CountReader, c: Catalogs, language: string, id: string, values: map<string, string>)
    requires Loaded(c) && Complete(c)
    ensures language in CODES && Translatable(reader, c, id, values) ==>
      && language in c.messages && id in c.messages[language]
      && var m := c.messages[language][id];
         var text := if m.text != "" then m.text else if reader(values["count"]).One? then m.one else m.other;
         && Read(text).Some? && HoleNames(text) <= values.Keys
         && Translation(reader, c, language, id, values) == Ok(Fill(Read(text).value, values))
  {
    if language in CODES && Translatable(reader, c, id, values) {
      assert SameMessages(c, language);
      TranslatesEverywhereOrNowhere(reader, c, language, id, values);
      var m := c.messages[language][id];
      RenderFills(m.text, values);
      RenderFills(m.one, values);
      RenderFills(m.other, values);
    }
  }

  /** The message a language shows: its own, or for other languages the default's. */
  function Own(c: Catalogs, language: string, id: string): (r: Message)
    requires Loaded(c) && Complete(c) && id in c.messages["en"]
  {
    assert language in CODES ==> SameMessages(c, language);
    if language in CODES then c.messages[language][id] else c.messages["en"][id]
  }

  /** The form a message has for a count. */
  function FormFor(reader: CountReader, m: Message, count: string): (r: string) {
    if m.text != "" then m.text else if reader(count) == One then m.one else m.other
  }

  /** A plural without a count, or with one that is no number; or the first hole without a value. */
  ghost predicate FailsFor(reader: CountReader, m: Message, values: map<string, string>, e: Error) {
    if m.text == "" && "count" !in values then e == MissingValue("count")
    else if m.text == "" && reader(values["count"]) == NotANumber then e == NotNumeric
    else
      var t := Read(FormFor(reader, m, if m.text == "" then values["count"] else ""));
      t.Some? && e.MissingValue? && FirstMissing(t.value, values, e.name)
  }

  lemma FormFailsWith(reader: CountReader, id: string, m: Message, values: map<string, string>, e: Error)
    requires ValidMessage(id, m)
    ensures Form(reader, m, values) == Err(e) <==> FailsFor(reader, m, values, e)
  {
    EmptyIsReadable();
    var name := if e.MissingValue? then e.name else "";
    if m.text != "" {
      RenderReportsFirst(m.text, values, name);
    } else {
      RenderReportsFirst(m.one, values, name);
      RenderReportsFirst(m.other, values, name);
    }
  }

  /** Why a translation fails, exactly: there is no such message, or it fails for the values. */
  lemma TranslationFailsWith(
    reader: CountReader, c: Catalogs, language: string, id: string, values: map<string, string>, e: Error)
    requires Loaded(c) && Complete(c)
    ensures Translation(reader, c, language, id, values) == Err(e) <==>
              if id in c.messages["en"] then FailsFor(reader, Own(c, language, id), values, e) else e == MissingMessage
  {
    FoundHasDefaultShape(c, language, id);
    if id in c.messages["en"] {
      assert language in CODES ==> SameMessages(c, language);
      assert Find(c, language, id) == Some(Own(c, language, id));
      FormFailsWith(reader, id, Own(c, language, id), values, e);
    }
  }

  /**
   Validation message by message does not give this: two plain messages with different
   holes can be rendered with some values in exactly one of the two languages.
   */
  lemma DifferentHolesDisagree(reader: CountReader, id: string, a: Message, b: Message)
    returns (values: map<string, string>)
    requires ValidMessage(id, a) && ValidMessage(id, b) && Plain(a) && Plain(b)
    requires HoleNames(a.text) != HoleNames(b.text)
    ensures Form(reader, a, values).Ok? <==> Form(reader, b, values).Err?
  {
    var needed := if HoleNames(a.text) <= HoleNames(b.text) then HoleNames(a.text) else HoleNames(b.text);
    values := map name | name in needed :: "";
    FormSucceedsIff(reader, id, a, values);
    FormSucceedsIff(reader, id, b, values);
  }
}
