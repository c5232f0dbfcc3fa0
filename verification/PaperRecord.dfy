/** The example of the Dremel paper (figures 2 and 3): a record with names, languages and
    countries, and two of its columns with their repetition and definition levels. */
module PaperRecord {
  import opened Messages
  import opened Schemas
  import opened ColumnData
  import opened Striping
  import opened LeafPaths

  // Name (1) is repeated; in it Language (2) is repeated and Url (3) optional; in a language Code
  // (4) is required and Country (5) optional.

  function LanguageFields(): seq<Field> {
    [Field(4, "Code", StringType, false, false), Field(5, "Country", StringType, false, true)]
  }

  function NameFields(): seq<Field> {
    [Field(2, "Language", ObjectType(LanguageFields()), true, false), Field(3, "Url", StringType, false, true)]
  }

  function Document(): seq<Field> {
    [Field(1, "Name", ObjectType(NameFields()), true, false)]
  }

  const Name := Step(1, true, false)
  const Language := Step(2, true, false)
  const Code := Step(4, false, false)
  const Country := Step(5, false, true)

  function Text(s: seq<Byte>): Value {
    StringValue(s)
  }

  /** A language with its code and perhaps a country. */
  function Lang(code: seq<Byte>, country: Option<seq<Byte>>): Message {
    Object(2, [Scalar(4, Text(code))] + if country.None? then [] else [Scalar(5, Text(country.value))])
  }

  /** Three names: one with two languages, one with a URL only, one with one language. */
  function Record(enUs: seq<Byte>, us: seq<Byte>, en: seq<Byte>, url: seq<Byte>, enGb: seq<Byte>, gb: seq<Byte>): Message {
    Object(0, [
      Object(1, [Lang(enUs, Some(us)), Lang(en, None), Scalar(3, Text(url))]),
      Object(1, [Scalar(3, Text(url))]),
      Object(1, [Lang(enGb, Some(gb))])])
  }

  // ---------------------------------------------------------------------------
  // The columns of a language, a name and the record
  // ---------------------------------------------------------------------------

  function Full(r: nat, d: nat, s: seq<Byte>): Entry {
    Entry(r, d, Some(StringDatum(s)))
  }

  function Null(r: nat, d: nat): Entry {
    Entry(r, d, None)
  }

  lemma {:induction false} Concatenated(r: nat, base: nat, d: nat, x: Message, more: seq<Message>, path: seq<Step>)
    requires path != []
    ensures StripeAll(r, base, d, [x] + more, path) == StripeOne(r, base, d, x, path) + StripeAll(base, base, d, more, path)
    ensures StripeAll(r, base, d, [], path) == []
  {
    hide Stripe, StripeAll;
    StripeSplit(r, base, d, [x] + more, path);
    assert ([x] + more)[1..] == more;
    NoneLeft(r, base, d, path);
  }

  lemma {:induction false} NoneLeft(r: nat, base: nat, d: nat, path: seq<Step>)
    requires path != []
    ensures StripeAll(r, base, d, [], path) == []
  {
  }

  lemma {:induction false} LanguageColumns(r: nat, d: nat, code: seq<Byte>, country: Option<seq<Byte>>)
    ensures Stripe(r, 2, d, Lang(code, country), [Code]) == [Full(r, d, code)]
    ensures Stripe(r, 2, d, Lang(code, country), [Country])
         == [if country.None? then Null(r, d) else Full(r, d + 1, country.value)]
  {
    hide Stripe, StripeAll, Occurrences;
    var o := Lang(code, country);
    Found(o, code, country);
    StripeCases(r, 2, d, o, [Code]);
    StripeCases(r, 2, d, o, [Country]);
    Concatenated(r, 2, d, Scalar(4, Text(code)), [], [Code]);
    NoneLeft(2, 2, d, [Code]);
    assert [Scalar(4, Text(code))] + [] == [Scalar(4, Text(code))];
    if country.Some? {
      var c := Scalar(5, Text(country.value));
      Concatenated(r, 2, d + 1, c, [], [Country]);
      NoneLeft(2, 2, d + 1, [Country]);
      assert [c] + [] == [c];
    }
  }

  lemma {:induction false} Found(o: Message, code: seq<Byte>, country: Option<seq<Byte>>)
    requires o == Lang(code, country)
    ensures Occurrences(Kids(o), 4) == [Scalar(4, Text(code))]
    ensures Occurrences(Kids(o), 5) == if country.None? then [] else [Scalar(5, Text(country.value))]
  {
    var a := Scalar(4, Text(code));
    var b := if country.None? then [] else [Scalar(5, Text(country.value))];
    OccurrencesConcat([a], b, 4);
    OccurrencesConcat([a], b, 5);
    OccurrencesOfOneId([a], 4, 4);
    OccurrencesOfOneId([a], 4, 5);
    OccurrencesOfOneId(b, 5, 4);
    OccurrencesOfOneId(b, 5, 5);
  }

  /** A name whose children are languages followed by a URL or nothing. */
  lemma {:induction false} NameLanguages(langs: seq<Message>, urls: seq<Message>)
    requires (forall x :: x in langs ==> x.id == 2) && (forall x :: x in urls ==> x.id == 3)
    ensures Occurrences(langs + urls, 2) == langs
  {
    OccurrencesConcat(langs, urls, 2);
    OccurrencesOfOneId(langs, 2, 2);
    OccurrencesOfOneId(urls, 3, 2);
  }

  lemma {:induction false} TwoLanguages(r: nat, a: seq<Byte>, us: seq<Byte>, b: seq<Byte>, url: seq<Byte>)
    ensures var name := Object(1, [Lang(a, Some(us)), Lang(b, None), Scalar(3, Text(url))]);
            && Stripe(r, 1, 1, name, [Language, Code]) == [Full(r, 2, a), Full(2, 2, b)]
            && Stripe(r, 1, 1, name, [Language, Country]) == [Full(r, 3, us), Null(2, 2)]
  {
    hide Stripe, StripeAll, Occurrences;
    var x, y, u := Lang(a, Some(us)), Lang(b, None), Scalar(3, Text(url));
    var name := Object(1, [x, y, u]);
    NameLanguages([x, y], [u]);
    assert [x, y] + [u] == [x, y, u] && [x] + [y] == [x, y] && [y] + [] == [y];
    LanguageColumns(r, 2, a, Some(us));
    LanguageColumns(2, 2, b, None);
    LevelsOf(r, name, [x, y], [Language, Code]);
    LevelsOf(r, name, [x, y], [Language, Country]);
    Concatenated(r, 2, 2, x, [y], [Language, Code]);
    Concatenated(r, 2, 2, x, [y], [Language, Country]);
    Concatenated(2, 2, 2, y, [], [Language, Code]);
    Concatenated(2, 2, 2, y, [], [Language, Country]);
    NoneLeft(2, 2, 2, [Language, Code]);
    NoneLeft(2, 2, 2, [Language, Country]);
    assert [Language, Code][1..] == [Code] && [Language, Country][1..] == [Country];
  }

  lemma {:induction false} OneLanguage(r: nat, a: seq<Byte>, gb: seq<Byte>)
    ensures var name := Object(1, [Lang(a, Some(gb))]);
            && Stripe(r, 1, 1, name, [Language, Code]) == [Full(r, 2, a)]
            && Stripe(r, 1, 1, name, [Language, Country]) == [Full(r, 3, gb)]
  {
    hide Stripe, StripeAll, Occurrences;
    var x := Lang(a, Some(gb));
    var name := Object(1, [x]);
    NameLanguages([x], []);
    assert [x] + [] == [x];
    LanguageColumns(r, 2, a, Some(gb));
    LevelsOf(r, name, [x], [Language, Code]);
    LevelsOf(r, name, [x], [Language, Country]);
    Concatenated(r, 2, 2, x, [], [Language, Code]);
    Concatenated(r, 2, 2, x, [], [Language, Country]);
    NoneLeft(2, 2, 2, [Language, Code]);
    NoneLeft(2, 2, 2, [Language, Country]);
    assert [Language, Code][1..] == [Code] && [Language, Country][1..] == [Country];
  }

  lemma {:induction false} LevelsOf(r: nat, name: Message, langs: seq<Message>, path: seq<Step>)
    requires |path| == 2 && path[0] == Language && Occurrences(Kids(name), 2) == langs && langs != []
    ensures Stripe(r, 1, 1, name, path) == StripeAll(r, 2, 2, langs, path)
  {
    hide StripeAll, Occurrences;
    StripeCases(r, 1, 1, name, path);
  }

  lemma {:induction false} NoLanguage(r: nat, url: seq<Byte>, leaf: Step)
    ensures Stripe(r, 1, 1, Object(1, [Scalar(3, Text(url))]), [Language, leaf]) == [Null(r, 1)]
  {
    hide Stripe, StripeAll, Occurrences;
    var name, u := Object(1, [Scalar(3, Text(url))]), Scalar(3, Text(url));
    NameLanguages([], [u]);
    assert [] + [u] == [u];
    StripeCases(r, 1, 1, name, [Language, leaf]);
  }

  lemma {:induction false} BelowName(r: nat, x: Message, path: seq<Step>)
    requires |path| == 3
    ensures StripeOne(r, 1, 1, x, path) == Stripe(r, 1, 1, x, path[1..])
  {
  }

  lemma {:induction false} NamesOf(names: seq<Message>, path: seq<Step>)
    requires |path| == 3 && path[0] == Name && names != [] && forall x :: x in names ==> x.id == 1
    ensures Stripe(0, 0, 0, Object(0, names), path) == StripeAll(0, 1, 1, names, path)
  {
    hide Stripe, StripeAll, Occurrences;
    OccurrencesOfOneId(names, 1, 1);
    StripeCases(0, 0, 0, Object(0, names), path);
  }

  lemma {:induction false} ThreeNames(a: Message, b: Message, c: Message, path: seq<Step>)
    requires |path| == 3 && path[0] == Name && a.id == 1 && b.id == 1 && c.id == 1
    ensures Stripe(0, 0, 0, Object(0, [a, b, c]), path)
         == Stripe(0, 1, 1, a, path[1..]) + Stripe(1, 1, 1, b, path[1..]) + Stripe(1, 1, 1, c, path[1..])
  {
    hide *;
    NamesOf([a, b, c], path);
    Concatenated(0, 1, 1, a, [b, c], path);
    Concatenated(1, 1, 1, b, [c], path);
    Concatenated(1, 1, 1, c, [], path);
    BelowName(0, a, path);
    BelowName(1, b, path);
    BelowName(1, c, path);
    assert [a] + [b, c] == [a, b, c] && [b] + [c] == [b, c] && [c] + [] == [c];
    var x, y, z := Stripe(0, 1, 1, a, path[1..]), Stripe(1, 1, 1, b, path[1..]), Stripe(1, 1, 1, c, path[1..]);
    assert x + (y + (z + [])) == x + y + z;
  }

  /** The columns of the paper: Code has (en-us, 0, 2), (en, 2, 2), (null, 1, 1), (en-gb, 1, 2) and
      Country has (us, 0, 3), (null, 2, 2), (null, 1, 1), (gb, 1, 3). */
  lemma {:induction false} PaperColumns(enUs: seq<Byte>, us: seq<Byte>, en: seq<Byte>, url: seq<Byte>, enGb: seq<Byte>, gb: seq<Byte>)
    ensures var o := Record(enUs, us, en, url, enGb, gb);
            && Stripe(0, 0, 0, o, [Name, Language, Code]) == [Full(0, 2, enUs), Full(2, 2, en), Null(1, 1), Full(1, 2, enGb)]
            && Stripe(0, 0, 0, o, [Name, Language, Country]) == [Full(0, 3, us), Null(2, 2), Null(1, 1), Full(1, 3, gb)]
  {
    hide Stripe, StripeAll, Occurrences;
    var o := Record(enUs, us, en, url, enGb, gb);
    var a, b, c := o.children[0], o.children[1], o.children[2];
    assert o == Object(0, [a, b, c]);
    assert [Name, Language, Code][1..] == [Language, Code] && [Name, Language, Country][1..] == [Language, Country];
    ThreeNames(a, b, c, [Name, Language, Code]);
    ThreeNames(a, b, c, [Name, Language, Country]);
    TwoLanguages(0, enUs, us, en, url);
    NoLanguage(1, url, Code);
    NoLanguage(1, url, Country);
    OneLanguage(1, enGb, gb);
  }

  /** The schema's leaves and the types of the columns that a table of it has. */
  lemma {:induction false} PaperSchema()
    ensures WellFormed(Document())
    ensures RepLevel([Name, Language, Code]) == 2 && DefLevel([Name, Language, Code]) == 2
    ensures RepLevel([Name, Language, Country]) == 2 && DefLevel([Name, Language, Country]) == 3
  {
    assert WellFormed(LanguageFields());
    assert WellFormed(NameFields());
    LevelStep([Name, Language, Code]);
    LevelStep([Name, Language, Country]);
    LevelStep([Language, Code]);
    LevelStep([Language, Country]);
    LevelStep([Code]);
    LevelStep([Country]);
    assert [Name, Language, Code][1..] == [Language, Code] && [Name, Language, Country][1..] == [Language, Country];
    assert [Language, Code][1..] == [Code] && [Language, Country][1..] == [Country];
    assert [Code][1..] == [] && [Country][1..] == [];
  }

  predicate Short(s: seq<Byte>) {
    |s| < TWO_32
  }

  lemma {:induction false} LangConforms(code: seq<Byte>, country: Option<seq<Byte>>)
    requires Short(code) && (country.Some? ==> Short(country.value))
    ensures Conforms(Lang(code, country), LanguageFields())
  {
    hide Occurrences;
    var o, fields := Lang(code, country), LanguageFields();
    Found(o, code, country);
    FindIdUnique(fields, 0);
    FindIdUnique(fields, 1);
  }

  lemma {:induction false} NameConforms(langs: seq<Message>, urls: seq<Message>)
    requires forall x :: x in langs ==> x.id == 2 && Conforms(x, LanguageFields())
    requires |urls| <= 1 && forall x :: x in urls ==> x.id == 3 && x.Scalar? && Typed(x.value, StringType)
    ensures Conforms(Object(1, langs + urls), NameFields())
  {
    hide Occurrences;
    var o, fields := Object(1, langs + urls), NameFields();
    FindIdUnique(fields, 0);
    FindIdUnique(fields, 1);
    OccurrencesConcat(langs, urls, 2);
    OccurrencesConcat(langs, urls, 3);
    OccurrencesOfOneId(langs, 2, 2);
    OccurrencesOfOneId(langs, 2, 3);
    OccurrencesOfOneId(urls, 3, 2);
    OccurrencesOfOneId(urls, 3, 3);
    forall i | 0 <= i < |o.children|
      ensures FindId(fields, o.children[i].id).Some? && ChildConforms(o.children[i], FindId(fields, o.children[i].id).value)
    {
      assert o.children[i] in langs || o.children[i] in urls;
    }
  }

  lemma {:induction false} DocumentConforms(names: seq<Message>)
    requires forall x :: x in names ==> x.id == 1 && Conforms(x, NameFields())
    ensures Conforms(Object(0, names), Document())
  {
    hide Occurrences;
    FindIdUnique(Document(), 0);
    OccurrencesOfOneId(names, 1, 1);
    forall i | 0 <= i < |names|
      ensures FindId(Document(), names[i].id).Some? && ChildConforms(names[i], FindId(Document(), names[i].id).value)
    {
      assert names[i] in names;
    }
  }

  /** The record conforms to the schema, so the theorems about records speak of it. */
  lemma {:induction false} PaperConforms(enUs: seq<Byte>, us: seq<Byte>, en: seq<Byte>, url: seq<Byte>, enGb: seq<Byte>, gb: seq<Byte>)
    requires Short(enUs) && Short(us) && Short(en) && Short(url) && Short(enGb) && Short(gb)
    ensures Conforms(Record(enUs, us, en, url, enGb, gb), Document())
  {
    hide Conforms;
    var x, y, z, u := Lang(enUs, Some(us)), Lang(en, None), Lang(enGb, Some(gb)), Scalar(3, Text(url));
    LangConforms(enUs, Some(us));
    LangConforms(en, None);
    LangConforms(enGb, Some(gb));
    NameConforms([x, y], [u]);
    NameConforms([], [u]);
    NameConforms([z], []);
    assert [x, y] + [u] == [x, y, u] && [] + [u] == [u] && [z] + [] == [z];
    DocumentConforms([Object(1, [x, y, u]), Object(1, [u]), Object(1, [z])]);
  }
}
