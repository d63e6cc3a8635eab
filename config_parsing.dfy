/**
 * Finalising a validated configuration: the property list is built, the
 * substitution pass runs over it, hidden properties are dropped, and one
 * language configuration is made per language entry. Also the small
 * decoders the validation step and the language loop rely on.
 */
module ConfigParsing {
  import opened Results
  import opened Properties
  import opened Substitution

  /** A language of the registry (an enumeration member; only its identity matters here). */
  datatype LanguageType = LanguageType(id: nat)

  /** A language-configuration implementation of the registry. */
  datatype ConfigType = ConfigType(id: nat)

  /** One registry entry: the language's input name, its type and its configuration implementation. */
  datatype LanguageMapping = LanguageMapping(name: string, ltype: LanguageType, configType: ConfigType)

  /** The output naming conventions. */
  datatype NamingConventionType = SnakeCase | ScreamingSnakeCase | CamelCase | PascalCase | KebapCase

  /**
   * What the naming-convention decoder returns: a convention, or its input
   * unchanged when that names none.
   */
  datatype NamingChoice = Convention(convention: NamingConventionType) | Unrecognised(raw: Option<string>)

  /** A value of a language entry's additional parameters: YAML null or a scalar. */
  datatype Param = Null | Value(v: Scalar)

  /** The exceptions of configuration parsing. */
  datatype ConfigError =
    | UnknownPropertyType(tag: string)
    | UnknownLanguage(language: string)
    | SeveralLanguages(language: string)
    | NoLanguageConfig(ltype: LanguageType)
    /** Raised with a fixed message, not the language type. */
    | SeveralLanguageConfigs
    | SubstitutionFailed(cause: SubstError)

  /** A validated property entry, its type tag already decoded. */
  datatype PropertyEntry = PropertyEntry(
    ptype: PropertyType,
    name: string,
    value: Scalar,
    hidden: Option<bool>,
    comment: Option<string>)

  /**
   * A validated language entry: its decoded type, the optional `file_naming`
   * and `indent` keys, and every other key passed on as is.
   */
  datatype LanguageEntry = LanguageEntry(
    ltype: LanguageType,
    fileNaming: Option<string>,
    indent: Option<int>,
    params: map<string, Param>)

  /** The validated document: its `properties` and `languages` lists. */
  datatype Document = Document(properties: seq<PropertyEntry>, languages: seq<LanguageEntry>)

  /**
   * What a language configuration is constructed from. The whole language
   * entry, its decoded `type`, `file_naming` and `indent` included, is
   * passed on as the additional properties.
   */
  datatype LanguageConfig = LanguageConfig(
    configType: ConfigType,
    configName: string,
    fileNaming: NamingChoice,
    properties: seq<Property>,
    indent: Option<int>,
    additionalProps: LanguageEntry)

  // ---------------------------------------------------------------- decoders

  /** The input spelling of each property type. */
  function PropertyTypeTag(t: PropertyType): string
  {
    match t
    case BOOL => "bool"
    case INT => "int"
    case FLOAT => "float"
    case DOUBLE => "double"
    case STRING => "string"
    case REGEX => "regex"
  }

  /** Decodes a property type tag; any other tag is an unknown property type. */
  function EvaluateDataType(tag: string): (r: Result<PropertyType, ConfigError>)
    ensures r.Ok? <==> tag in {"bool", "int", "float", "double", "string", "regex"}
    ensures r.Ok? ==> PropertyTypeTag(r.value) == tag
    ensures r.Err? ==> r.error == UnknownPropertyType(tag)
  {
    if tag == "bool" then Ok(BOOL)
    else if tag == "int" then Ok(INT)
    else if tag == "float" then Ok(FLOAT)
    else if tag == "double" then Ok(DOUBLE)
    else if tag == "string" then Ok(STRING)
    else if tag == "regex" then Ok(REGEX)
    else Err(UnknownPropertyType(tag))
  }

  /** Every property type is decoded from its own tag, and tags are distinct. */
  lemma DataTypeTags(t: PropertyType, u: PropertyType)
    ensures EvaluateDataType(PropertyTypeTag(t)) == Ok(t)
    ensures PropertyTypeTag(t) == PropertyTypeTag(u) ==> t == u
  {
  }

  /** The input spelling of each naming convention (`kebap` as the code spells it). */
  function ConventionTag(c: NamingConventionType): string
  {
    match c
    case SnakeCase => "snake"
    case ScreamingSnakeCase => "screaming_snake"
    case CamelCase => "camel"
    case PascalCase => "pascal"
    case KebapCase => "kebap"
  }

  /** Decodes a naming-convention string; anything else, `None` included, comes back unchanged. */
  function EvaluateNamingConvention(naming: Option<string>): (r: NamingChoice)
    ensures r.Convention? <==> naming.Some? && naming.value in {"snake", "screaming_snake", "camel", "pascal", "kebap"}
    ensures r.Convention? ==> ConventionTag(r.convention) == naming.value
    ensures r.Unrecognised? ==> r.raw == naming
  {
    if naming == Some("snake") then Convention(SnakeCase)
    else if naming == Some("screaming_snake") then Convention(ScreamingSnakeCase)
    else if naming == Some("camel") then Convention(CamelCase)
    else if naming == Some("pascal") then Convention(PascalCase)
    else if naming == Some("kebap") then Convention(KebapCase)
    else Unrecognised(naming)
  }

  /** Every convention is decoded from its own tag. */
  lemma ConventionTags(c: NamingConventionType)
    ensures EvaluateNamingConvention(Some(ConventionTag(c))) == Convention(c)
  {
  }

  // ---------------------------------------------------------- registry lookups

  /** The indices from `from` on whose key is `k`, in increasing order. */
  function Positions<T, K(==)>(s: seq<T>, key: T -> K, k: K, from: nat): (r: seq<nat>)
    ensures forall x :: x in r <==> from <= x < |s| && key(s[x]) == k
    ensures forall a :: 0 <= a < |r| ==> from <= r[a]
    ensures forall a, b :: 0 <= a < b < |r| ==> r[a] < r[b]
    decreases |s| - from
  {
    if from >= |s| then []
    else if key(s[from]) == k then [from] + Positions(s, key, k, from + 1)
    else Positions(s, key, k, from + 1)
  }

  /** How many indices of `Positions` there are says whether the match is none, one or several. */
  lemma PositionsCount<T, K>(s: seq<T>, key: T -> K, k: K)
    ensures |Positions(s, key, k, 0)| == 0 <==> forall i :: 0 <= i < |s| ==> key(s[i]) != k
    ensures |Positions(s, key, k, 0)| > 1 <==>
      exists i, j :: 0 <= i < j < |s| && key(s[i]) == k && key(s[j]) == k
    ensures |Positions(s, key, k, 0)| == 1 ==>
      var i := Positions(s, key, k, 0)[0];
      i < |s| && key(s[i]) == k && forall j :: 0 <= j < |s| && j != i ==> key(s[j]) != k
  {
    var r := Positions(s, key, k, 0);
    if |r| == 0 {
      assert forall i :: 0 <= i < |s| ==> i !in r;
    }
    if exists i, j :: 0 <= i < j < |s| && key(s[i]) == k && key(s[j]) == k {
      var i, j :| 0 <= i < j < |s| && key(s[i]) == k && key(s[j]) == k;
      assert i in r && j in r;
    }
    if |r| > 1 {
      assert r[0] in r && r[1] in r;
    }
    if |r| == 1 {
      assert r[0] in r;
      assert r == [r[0]];
    }
  }

  function MappingName(m: LanguageMapping): string { m.name }

  function MappingType(m: LanguageMapping): LanguageType { m.ltype }

  /**
   * The registry lookup by input name: no entry is an unknown language,
   * several are a registry defect, exactly one gives its language type.
   */
  function EvaluateLanguageType(registry: seq<LanguageMapping>, language: string): (r: Result<LanguageType, ConfigError>)
    ensures r == Err(UnknownLanguage(language)) <==> forall i :: 0 <= i < |registry| ==> registry[i].name != language
    ensures r == Err(SeveralLanguages(language)) <==>
      exists i, j :: 0 <= i < j < |registry| && registry[i].name == language && registry[j].name == language
    ensures r.Ok? ==> exists i :: (0 <= i < |registry| && registry[i].name == language && r.value == registry[i].ltype &&
                                   forall j :: 0 <= j < |registry| && j != i ==> registry[j].name != language)
    ensures r.Err? ==> r.error in {UnknownLanguage(language), SeveralLanguages(language)}
  {
    var found := Positions(registry, MappingName, language, 0);
    PositionsCount(registry, MappingName, language);
    if |found| == 0 then Err(UnknownLanguage(language))
    else if |found| > 1 then Err(SeveralLanguages(language))
    else Ok(registry[found[0]].ltype)
  }

  /**
   * The registry lookup by language type: no entry means no configuration,
   * several are a registry defect, exactly one gives its implementation.
   */
  function EvaluateConfigType(registry: seq<LanguageMapping>, ltype: LanguageType): (r: Result<ConfigType, ConfigError>)
    ensures r == Err(NoLanguageConfig(ltype)) <==> forall i :: 0 <= i < |registry| ==> registry[i].ltype != ltype
    ensures r == Err(SeveralLanguageConfigs) <==>
      exists i, j :: 0 <= i < j < |registry| && registry[i].ltype == ltype && registry[j].ltype == ltype
    ensures r.Ok? ==> exists i :: (0 <= i < |registry| && registry[i].ltype == ltype && r.value == registry[i].configType &&
                                   forall j :: 0 <= j < |registry| && j != i ==> registry[j].ltype != ltype)
    ensures r.Err? ==> r.error in {NoLanguageConfig(ltype), SeveralLanguageConfigs}
  {
    var found := Positions(registry, MappingType, ltype, 0);
    PositionsCount(registry, MappingType, ltype);
    if |found| == 0 then Err(NoLanguageConfig(ltype))
    else if |found| > 1 then Err(SeveralLanguageConfigs)
    else Ok(registry[found[0]].configType)
  }

  // ------------------------------------------------------------ hidden filter

  /** The properties that are not hidden, in their original order. */
  function Visible(ps: seq<Property>): (r: seq<Property>)
  {
    if ps == [] then []
    else if IsHidden(ps[0]) then Visible(ps[1..])
    else [ps[0]] + Visible(ps[1..])
  }

  /** The filter keeps every visible property and nothing else. */
  lemma {:induction false} VisibleMembers(ps: seq<Property>)
    ensures |Visible(ps)| <= |ps|
    ensures forall p :: p in Visible(ps) <==> p in ps && !IsHidden(p)
  {
    if ps != [] {
      VisibleMembers(ps[1..]);
      assert ps == [ps[0]] + ps[1..];
    }
  }

  /**
   * The filter keeps relative order: filtering a concatenation is the
   * concatenation of the filtered parts.
   */
  lemma {:induction false} VisibleConcat(ps: seq<Property>, qs: seq<Property>)
    ensures Visible(ps + qs) == Visible(ps) + Visible(qs)
  {
    if ps == [] {
      assert ps + qs == qs;
    } else {
      VisibleConcat(ps[1..], qs);
      var all := ps + qs;
      assert all[0] == ps[0];
      assert all[1..] == ps[1..] + qs;
      if IsHidden(ps[0]) {
        calc {
          Visible(all);
          Visible(ps[1..] + qs);
          Visible(ps[1..]) + Visible(qs);
          Visible(ps) + Visible(qs);
        }
      } else {
        calc {
          Visible(all);
          [ps[0]] + Visible(ps[1..] + qs);
          [ps[0]] + (Visible(ps[1..]) + Visible(qs));
          ([ps[0]] + Visible(ps[1..])) + Visible(qs);
          Visible(ps) + Visible(qs);
        }
      }
    }
  }

  /** A single property is kept exactly when it is not hidden. */
  lemma VisibleSingle(p: Property)
    ensures Visible([p]) == if IsHidden(p) then [] else [p]
  {
    assert [p][1..] == [];
  }

  // ------------------------------------------------------------------- parse

  function ToProperty(e: PropertyEntry): Property
  {
    Property(e.ptype, e.name, e.value, e.hidden, e.comment)
  }

  /** The property list built from the validated entries, one property per entry. */
  function CollectProperties(es: seq<PropertyEntry>): (ps: seq<Property>)
  {
    seq(|es|, k requires 0 <= k < |es| => ToProperty(es[k]))
  }

  /** The language configuration made for one language entry. */
  function ConfigFor(entry: LanguageEntry, configType: ConfigType, configName: string, ps: seq<Property>): LanguageConfig
  {
    LanguageConfig(configType, configName, EvaluateNamingConvention(entry.fileNaming), ps, entry.indent, entry)
  }

  /** The language loop from entry `i` on, stopping at the first failed lookup. */
  function BuildConfigs(langs: seq<LanguageEntry>, i: nat, configName: string, ps: seq<Property>,
                        registry: seq<LanguageMapping>): Result<seq<LanguageConfig>, ConfigError>
    decreases |langs| - i
  {
    if i >= |langs| then Ok([])
    else match EvaluateConfigType(registry, langs[i].ltype)
      case Err(e) => Err(e)
      case Ok(ct) => match BuildConfigs(langs, i + 1, configName, ps, registry)
        case Err(e) => Err(e)
        case Ok(rest) => Ok([ConfigFor(langs[i], ct, configName, ps)] + rest)
  }

  /** What `Config.parse` returns for a validated document. */
  function Parsed(doc: Document, configName: string, registry: seq<LanguageMapping>): Result<seq<LanguageConfig>, ConfigError>
  {
    match Substituted(CollectProperties(doc.properties))
    case Err(e) => Err(SubstitutionFailed(e))
    case Ok(qs) => BuildConfigs(doc.languages, 0, configName, Visible(qs), registry)
  }

  /** `out` put in front of the configurations of a successful build. */
  function Prepended(out: seq<LanguageConfig>, r: Result<seq<LanguageConfig>, ConfigError>): Result<seq<LanguageConfig>, ConfigError>
  {
    match r
    case Err(e) => Err(e)
    case Ok(rest) => Ok(out + rest)
  }

  /** The loop that collects the property list, one property per validated entry. */
  method CollectPropertyList(entries: seq<PropertyEntry>) returns (properties: seq<Property>)
    ensures properties == CollectProperties(entries)
  {
    properties := [];
    var i := 0;
    while i < |entries|
      invariant 0 <= i <= |entries|
      invariant |properties| == i
      invariant forall k :: 0 <= k < i ==> properties[k] == ToProperty(entries[k])
    {
      properties := properties + [ToProperty(entries[i])];
      i := i + 1;
    }
  }

  /** One step of the language loop. */
  lemma BuildConfigsFront(langs: seq<LanguageEntry>, j: nat, configName: string, ps: seq<Property>,
                          registry: seq<LanguageMapping>, configs: seq<LanguageConfig>)
    requires j < |langs| && EvaluateConfigType(registry, langs[j].ltype).Ok?
    ensures Prepended(configs, BuildConfigs(langs, j, configName, ps, registry)) ==
      Prepended(configs + [ConfigFor(langs[j], EvaluateConfigType(registry, langs[j].ltype).value, configName, ps)],
                BuildConfigs(langs, j + 1, configName, ps, registry))
  {
    var config := ConfigFor(langs[j], EvaluateConfigType(registry, langs[j].ltype).value, configName, ps);
    match BuildConfigs(langs, j + 1, configName, ps, registry) {
      case Err(_) =>
      case Ok(rest) => assert configs + ([config] + rest) == (configs + [config]) + rest;
    }
  }

  /**
   * `Config.parse` on a validated document: collect the properties,
   * substitute, drop the hidden ones, then make one configuration per
   * language entry, each sharing the same finalised list.
   */
  method Parse(doc: Document, configName: string, registry: seq<LanguageMapping>)
    returns (r: Result<seq<LanguageConfig>, ConfigError>)
    ensures r == Parsed(doc, configName, registry)
  {
    var properties := CollectPropertyList(doc.properties);
    var substituted := SubstituteAll(properties);
    if substituted.Err? {
      return Err(SubstitutionFailed(substituted.error));
    }
    var finalised := Visible(substituted.value);
    ghost var all := BuildConfigs(doc.languages, 0, configName, finalised, registry);
    assert Parsed(doc, configName, registry) == all;

    var configs: seq<LanguageConfig> := [];
    var j := 0;
    match all {
      case Err(_) =>
      case Ok(cs) => assert [] + cs == cs;
    }
    while j < |doc.languages|
      invariant 0 <= j <= |doc.languages|
      invariant all == Prepended(configs, BuildConfigs(doc.languages, j, configName, finalised, registry))
    {
      var entry := doc.languages[j];
      var configType := EvaluateConfigType(registry, entry.ltype);
      if configType.Err? {
        return Err(configType.error);
      }
      BuildConfigsFront(doc.languages, j, configName, finalised, registry, configs);
      configs := configs + [ConfigFor(entry, configType.value, configName, finalised)];
      j := j + 1;
    }
    assert configs + [] == configs;
    r := Ok(configs);
  }

  /**
   * The language loop succeeds exactly when every entry's type has one
   * configuration; a failure is that of the first entry that has not.
   */
  lemma {:induction false} BuildConfigsOutcome(langs: seq<LanguageEntry>, i: nat, configName: string,
                                               ps: seq<Property>, registry: seq<LanguageMapping>)
    requires i <= |langs|
    ensures BuildConfigs(langs, i, configName, ps, registry).Ok? <==>
      forall k :: i <= k < |langs| ==> EvaluateConfigType(registry, langs[k].ltype).Ok?
    ensures BuildConfigs(langs, i, configName, ps, registry).Err? ==>
      exists k :: i <= k < |langs| &&
        EvaluateConfigType(registry, langs[k].ltype) == Err(BuildConfigs(langs, i, configName, ps, registry).error) &&
        forall j :: i <= j < k ==> EvaluateConfigType(registry, langs[j].ltype).Ok?
    decreases |langs| - i
  {
    if i < |langs| {
      var r := BuildConfigs(langs, i, configName, ps, registry);
      var head := EvaluateConfigType(registry, langs[i].ltype);
      BuildConfigsOutcome(langs, i + 1, configName, ps, registry);
      var tail := BuildConfigs(langs, i + 1, configName, ps, registry);
      if head.Err? {
        assert r == Err(head.error);
        assert EvaluateConfigType(registry, langs[i].ltype) == Err(r.error);
      } else {
        assert r.Ok? == tail.Ok?;
        if tail.Err? {
          assert r == tail;
          var k :| i + 1 <= k < |langs| &&
            EvaluateConfigType(registry, langs[k].ltype) == Err(tail.error) &&
            forall j :: i + 1 <= j < k ==> EvaluateConfigType(registry, langs[j].ltype).Ok?;
          assert forall j :: i <= j < k ==> EvaluateConfigType(registry, langs[j].ltype).Ok?;
        }
      }
    }
  }

  /** On success entry `k` gives configuration `k`, all sharing the same property list. */
  lemma {:induction false} BuildConfigsValues(langs: seq<LanguageEntry>, i: nat, configName: string,
                                              ps: seq<Property>, registry: seq<LanguageMapping>, cs: seq<LanguageConfig>)
    requires i <= |langs|
    requires BuildConfigs(langs, i, configName, ps, registry) == Ok(cs)
    ensures |cs| == |langs| - i
    ensures forall k :: i <= k < |langs| ==>
      EvaluateConfigType(registry, langs[k].ltype).Ok? &&
      cs[k - i] == ConfigFor(langs[k], EvaluateConfigType(registry, langs[k].ltype).value, configName, ps)
    decreases |langs| - i
  {
    if i < |langs| {
      var head := EvaluateConfigType(registry, langs[i].ltype);
      var tail := BuildConfigs(langs, i + 1, configName, ps, registry);
      assert head.Ok? && tail.Ok?;
      BuildConfigsValues(langs, i + 1, configName, ps, registry, tail.value);
      assert cs == [ConfigFor(langs[i], head.value, configName, ps)] + tail.value;
    }
  }

  /**
   * `Config.parse` fails with a substitution error exactly when the
   * substitution pass fails, and otherwise succeeds exactly when every
   * language type has one configuration, failing with the first lookup
   * error.
   */
  lemma ParsedOutcome(doc: Document, configName: string, registry: seq<LanguageMapping>)
    ensures var sub := Substituted(CollectProperties(doc.properties));
      sub.Err? ==> Parsed(doc, configName, registry) == Err(SubstitutionFailed(sub.error))
    ensures Parsed(doc, configName, registry).Ok? <==>
      Substituted(CollectProperties(doc.properties)).Ok? &&
      forall k :: 0 <= k < |doc.languages| ==> EvaluateConfigType(registry, doc.languages[k].ltype).Ok?
    ensures Substituted(CollectProperties(doc.properties)).Ok? && Parsed(doc, configName, registry).Err? ==>
      exists k :: 0 <= k < |doc.languages| &&
        EvaluateConfigType(registry, doc.languages[k].ltype) == Err(Parsed(doc, configName, registry).error) &&
        forall j :: 0 <= j < k ==> EvaluateConfigType(registry, doc.languages[j].ltype).Ok?
  {
    var sub := Substituted(CollectProperties(doc.properties));
    if sub.Ok? {
      var finalised := Visible(sub.value);
      assert Parsed(doc, configName, registry) == BuildConfigs(doc.languages, 0, configName, finalised, registry);
      BuildConfigsOutcome(doc.languages, 0, configName, finalised, registry);
    }
  }

  /**
   * On success `Config.parse` returns one configuration per language entry,
   * in order, each holding the substituted list without its hidden
   * properties, so no hidden property reaches any language.
   */
  lemma ParsedConfigs(doc: Document, configName: string, registry: seq<LanguageMapping>, cs: seq<LanguageConfig>)
    requires Parsed(doc, configName, registry) == Ok(cs)
    ensures Substituted(CollectProperties(doc.properties)).Ok?
    ensures |cs| == |doc.languages|
    ensures forall k :: 0 <= k < |doc.languages| ==>
      EvaluateConfigType(registry, doc.languages[k].ltype).Ok? &&
      cs[k] == ConfigFor(doc.languages[k], EvaluateConfigType(registry, doc.languages[k].ltype).value, configName,
                         Visible(Substituted(CollectProperties(doc.properties)).value))
    ensures forall k, p :: 0 <= k < |cs| && p in cs[k].properties ==> !IsHidden(p)
  {
    var sub := Substituted(CollectProperties(doc.properties));
    var finalised := Visible(sub.value);
    assert Parsed(doc, configName, registry) == BuildConfigs(doc.languages, 0, configName, finalised, registry);
    BuildConfigsValues(doc.languages, 0, configName, finalised, registry, cs);
    VisibleMembers(sub.value);
    forall k, p | 0 <= k < |cs| && p in cs[k].properties
      ensures !IsHidden(p)
    {
      var ct := EvaluateConfigType(registry, doc.languages[k].ltype);
      assert ct.Ok? && cs[k - 0] == ConfigFor(doc.languages[k], ct.value, configName, finalised);
    }
  }

  /** The substitution pass of the hidden-source scenario: `NAME` stays, `GREETING` is expanded. */
  lemma HiddenSourceSubstituted(world: string, greeting: string, name: Property, greet: Property)
    requires world == "World" && greeting == "Hello " + PlaceholderFor("NAME") + "!"
    requires name == Property(STRING, "NAME", Str(world), Some(true), None)
    requires greet == Property(STRING, "GREETING", Str(greeting), None, None)
    ensures Substituted([name, greet]) == Ok([name, greet.(value := Str("Hello World!"))])
  {
    var ps := [name, greet];
    NoDollarUnchanged(world, "NAME", ps);
    assert ps[0 := ps[0].(value := Str(world))] == ps;
    assert SubstituteFrom(ps, 0) == SubstituteFrom(ps, 1);
    var done := greet.(value := Str("Hello World!"));
    assert Resolve("NAME", "GREETING", ps) == Ok(Str(world)) by {
      assert FirstWith(ps, 0, "NAME");
    }
    ExpandOnePlaceholder("Hello ", "NAME", "!", "GREETING", ps);
    assert "Hello " + world + "!" == "Hello World!";
    assert ps[1 := ps[1].(value := Str("Hello World!"))] == [name, done];
    assert SubstituteFrom(ps, 1) == SubstituteFrom([name, done], 2);
  }

  /** The language loop of the hidden-source scenario: one configuration with the visible property only. */
  lemma HiddenSourceBuilt(name: Property, done: Property, langs: seq<LanguageEntry>, registry: seq<LanguageMapping>,
                          configName: string)
    requires IsHidden(name) && !IsHidden(done)
    requires langs == [LanguageEntry(LanguageType(0), None, None, map["package" := Value(Str("com.example"))])]
    requires registry == [LanguageMapping("java", LanguageType(0), ConfigType(0))]
    ensures BuildConfigs(langs, 0, configName, Visible([name, done]), registry) ==
      Ok([LanguageConfig(ConfigType(0), configName, Unrecognised(None), [done], None, langs[0])])
  {
    assert Visible([name, done]) == [done] by {
      assert [name, done][1..] == [done];
      assert [done][1..] == [];
      assert Visible([done]) == [done] + Visible([]);
    }
    assert EvaluateConfigType(registry, LanguageType(0)) == Ok(ConfigType(0)) by {
      PositionsCount(registry, MappingType, LanguageType(0));
    }
    var config := ConfigFor(langs[0], ConfigType(0), configName, [done]);
    assert BuildConfigs(langs, 1, configName, [done], registry) == Ok([]);
    assert BuildConfigs(langs, 0, configName, [done], registry) == Ok([config] + []);
    assert [config] + [] == [config];
  }

  /**
   * A hidden `NAME = "World"` feeds `GREETING = "Hello ${NAME}!"` and then
   * disappears: the one language gets only `GREETING = "Hello World!"`.
   */
  lemma HiddenSourceScenario(world: string, greeting: string, configName: string)
    requires world == "World" && greeting == "Hello " + PlaceholderFor("NAME") + "!" && configName == "test-config"
    ensures var doc := Document(
        [PropertyEntry(STRING, "NAME", Str(world), Some(true), None),
         PropertyEntry(STRING, "GREETING", Str(greeting), None, None)],
        [LanguageEntry(LanguageType(0), None, None, map["package" := Value(Str("com.example"))])]);
      var registry := [LanguageMapping("java", LanguageType(0), ConfigType(0))];
      Parsed(doc, configName, registry) ==
        Ok([LanguageConfig(ConfigType(0), configName, Unrecognised(None),
                           [Property(STRING, "GREETING", Str("Hello World!"), None, None)], None,
                           LanguageEntry(LanguageType(0), None, None, map["package" := Value(Str("com.example"))]))])
  {
    var doc := Document(
      [PropertyEntry(STRING, "NAME", Str(world), Some(true), None),
       PropertyEntry(STRING, "GREETING", Str(greeting), None, None)],
      [LanguageEntry(LanguageType(0), None, None, map["package" := Value(Str("com.example"))])]);
    var registry := [LanguageMapping("java", LanguageType(0), ConfigType(0))];
    var name := Property(STRING, "NAME", Str(world), Some(true), None);
    var greet := Property(STRING, "GREETING", Str(greeting), None, None);
    var done := greet.(value := Str("Hello World!"));
    assert CollectProperties(doc.properties) == [name, greet];
    HiddenSourceSubstituted(world, greeting, name, greet);
    HiddenSourceBuilt(name, done, doc.languages, registry, configName);
  }
}
