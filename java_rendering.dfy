/**
 * The Java generator's hooks: the package preamble, the class frame, and the
 * `public final static` declaration of one property with its literal.
 */
module JavaRendering {
  import opened Results
  import opened Texts
  import opened Properties
  import opened ConfigParsing

  /** The generator's exceptions. */
  datatype JavaError =
    /** The language entry has no `package` key. */
    | NoPackageName
    /** The `package` key holds a falsy value. */
    | EmptyPackageName
    /** A string or regex property whose value is not a string has no `replace` to call. */
    | NonStringValue(name: string)

  /** A Java generator after construction: the type name and the checked package value. */
  datatype JavaGenerator = JavaGenerator(className: string, package: Scalar)

  /** The additional-parameter key naming the package. */
  const PackageKey := "package"

  /**
   * Reads the package name from the additional properties, the language
   * entry the generator is given (its decoded `type`, `file_naming` and
   * `indent` keys are never `package`): a missing key and a falsy value are
   * refused, any truthy value is taken as it is.
   */
  function EvaluatePackageName(props: LanguageEntry): (r: Result<Scalar, JavaError>)
    ensures r == Err(NoPackageName) <==> PackageKey !in props.params
    ensures r == Err(EmptyPackageName) <==>
      PackageKey in props.params && !(props.params[PackageKey].Value? && Truthy(props.params[PackageKey].v))
    ensures PackageKey in props.params && props.params[PackageKey].Value? && Truthy(props.params[PackageKey].v) ==>
      r == Ok(props.params[PackageKey].v)
    ensures r.Ok? ==> PackageKey in props.params && props.params[PackageKey] == Value(r.value) && Truthy(r.value)
  {
    if PackageKey !in props.params then Err(NoPackageName)
    else
      var package := props.params[PackageKey];
      if package.Null? || !Truthy(package.v) then Err(EmptyPackageName) else Ok(package.v)
  }

  /**
   * Constructs the generator: it fails with the package check's exception
   * when that refuses, and otherwise keeps the class name and the package.
   */
  function NewJavaGenerator(className: string, props: LanguageEntry): (r: Result<JavaGenerator, JavaError>)
    ensures r.Ok? <==> EvaluatePackageName(props).Ok?
    ensures r.Err? ==> r.error == EvaluatePackageName(props).error && r.error in {NoPackageName, EmptyPackageName}
    ensures r.Ok? ==> r.value.className == className && Value(r.value.package) == props.params[PackageKey]
  {
    match EvaluatePackageName(props)
    case Err(e) => Err(e)
    case Ok(package) => Ok(JavaGenerator(className, package))
  }

  /** The text between a known prefix and suffix, if `s` has both. */
  function Between(s: string, prefix: string, suffix: string): Option<string>
  {
    if |s| >= |prefix| + |suffix| && s[..|prefix|] == prefix && s[|s| - |suffix|..] == suffix
    then Some(s[|prefix|..|s| - |suffix|])
    else None
  }

  lemma Unwrap(prefix: string, x: string, suffix: string)
    ensures Between(prefix + x + suffix, prefix, suffix) == Some(x)
  {
    var s := prefix + x + suffix;
    assert s[..|prefix|] == prefix;
    assert s[|s| - |suffix|..] == suffix;
    assert s[|prefix|..|s| - |suffix|] == x;
  }

  /** The preamble: a package declaration naming the package, then an empty line. */
  function BeforeClass(g: JavaGenerator): (r: string)
    ensures Between(r, "package ", ";\n\n") == Some(Text(g.package))
  {
    Unwrap("package ", Text(g.package), ";\n\n");
    "package " + Text(g.package) + ";\n\n"
  }

  /** Nothing follows the class. */
  function AfterClass(g: JavaGenerator): (r: string)
    ensures r == ""
  {
    ""
  }

  /** The class header, from which the class name can be read back. */
  function StartClass(className: string): (r: string)
    ensures Between(r, "public class ", " {") == Some(className)
  {
    Unwrap("public class ", className, " {");
    "public class " + className + " {"
  }

  /** The class closes with a single brace. */
  function EndClass(): (r: string)
    ensures r == "}"
  {
    "}"
  }

  /** Nothing is emitted before a property. */
  function PropertyBeforeClass(p: Property): (r: string)
    ensures r == ""
  {
    ""
  }

  /** A trailing block comment, from which the comment can be read back. */
  function PropertyComment(comment: string): (r: string)
    ensures Between(r, " /* ", " */") == Some(comment)
  {
    Unwrap(" /* ", comment, " */");
    " /* " + comment + " */"
  }

  /** `s` with every backslash doubled. */
  function Escape(s: string): (r: string)
    ensures |r| == |s| + CountChar(s, '\\')
  {
    if s == [] then ""
    else (if s[0] == '\\' then "\\\\" else [s[0]]) + Escape(s[1..])
  }

  /** Reads a doubled backslash as one, every other character as itself. */
  function Unescape(s: string): string
  {
    if s == [] then ""
    else if |s| >= 2 && s[0] == '\\' && s[1] == '\\' then "\\" + Unescape(s[2..])
    else [s[0]] + Unescape(s[1..])
  }

  /** Escaping loses nothing: unescaping gives the original back, so escaping is injective. */
  lemma {:induction false} EscapeRoundTrip(s: string)
    ensures Unescape(Escape(s)) == s
  {
    if s != [] {
      EscapeRoundTrip(s[1..]);
      var e := Escape(s);
      if s[0] == '\\' {
        assert e[2..] == Escape(s[1..]);
      } else {
        assert e[1..] == Escape(s[1..]);
      }
      assert s == [s[0]] + s[1..];
    }
  }

  lemma EscapeInjective(s: string, t: string)
    requires Escape(s) == Escape(t)
    ensures s == t
  {
    EscapeRoundTrip(s);
    EscapeRoundTrip(t);
  }

  /** The Java type each property type is declared with. */
  function JavaTypeName(t: PropertyType): string
  {
    match t
    case BOOL => "boolean"
    case INT => "int"
    case FLOAT => "float"
    case DOUBLE => "double"
    case STRING => "String"
    case REGEX => "String"
  }

  /** The Java literal for a property's value. */
  function JavaLiteral(p: Property): (r: Result<string, JavaError>)
    ensures r.Err? <==> p.ptype in {STRING, REGEX} && !p.value.Str?
    ensures r.Err? ==> r.error == NonStringValue(p.name)
  {
    match p.ptype
    case BOOL => Ok(if Truthy(p.value) then "true" else "false")
    case INT => Ok(Text(p.value))
    case FLOAT => Ok(Text(p.value) + "f")
    case DOUBLE => Ok(Text(p.value) + "d")
    case STRING | REGEX =>
      if p.value.Str? then Ok("\"" + Escape(p.value.s) + "\"") else Err(NonStringValue(p.name))
  }

  /**
   * What a literal tells about the value: a boolean is `true` exactly when
   * the value is truthy; numbers keep their text, with `f` or `d` after a
   * float or double; a string or regex sits in quotes, unescapes to the
   * value, and is as long as the value plus its backslashes plus two.
   */
  lemma LiteralMeaning(p: Property, lit: string)
    requires JavaLiteral(p) == Ok(lit)
    ensures p.ptype == BOOL ==> (lit == "true" <==> Truthy(p.value)) && (lit == "false" <==> !Truthy(p.value))
    ensures p.ptype == INT ==> lit == Text(p.value)
    ensures p.ptype == FLOAT ==> |lit| >= 1 && lit[|lit| - 1] == 'f' && lit[..|lit| - 1] == Text(p.value)
    ensures p.ptype == DOUBLE ==> |lit| >= 1 && lit[|lit| - 1] == 'd' && lit[..|lit| - 1] == Text(p.value)
    ensures p.ptype in {STRING, REGEX} ==>
      p.value.Str? && |lit| == |p.value.s| + CountChar(p.value.s, '\\') + 2 &&
      lit[0] == '"' && lit[|lit| - 1] == '"' && Unescape(lit[1..|lit| - 1]) == p.value.s
  {
    if p.ptype in {STRING, REGEX} {
      var e := Escape(p.value.s);
      assert lit[1..|lit| - 1] == e;
      EscapeRoundTrip(p.value.s);
    } else if p.ptype in {FLOAT, DOUBLE} {
      assert lit[..|lit| - 1] == Text(p.value);
    }
  }

  /** The fixed shape of every declaration line. */
  function Declaration(javaType: string, name: string, literal: string): (r: string)
    ensures Between(r, "public final static ", ";") == Some(javaType + " " + name + " = " + literal)
  {
    var body := javaType + " " + name + " = " + literal;
    Unwrap("public final static ", body, ";");
    "public final static " + body + ";"
  }

  /** The declaration line of one property. */
  function PropertyInClass(p: Property): (r: Result<string, JavaError>)
    ensures r.Ok? <==> JavaLiteral(p).Ok?
    ensures r.Err? ==> r.error == NonStringValue(p.name)
    ensures r.Ok? ==>
      Between(r.value, "public final static ", ";") == Some(JavaTypeName(p.ptype) + " " + p.name + " = " + JavaLiteral(p).value)
  {
    match JavaLiteral(p)
    case Err(e) => Err(e)
    case Ok(literal) => Ok(Declaration(JavaTypeName(p.ptype), p.name, literal))
  }

  /** A boolean flag set to `true` renders as a `boolean` constant with the literal `true`. */
  lemma BooleanFlagScenario(p: Property)
    requires p == Property(BOOL, "MY_FLAG", Boolean(true), None, None)
    ensures PropertyInClass(p) == Ok("public final static boolean MY_FLAG = true;")
  {
    assert JavaLiteral(p) == Ok("true");
    assert "public final static " + ("boolean" + " " + "MY_FLAG" + " = " + "true") + ";" ==
      "public final static boolean MY_FLAG = true;";
  }

  /** A package `com.example` opens the file with its declaration. */
  lemma PackageScenario(props: LanguageEntry)
    requires props == LanguageEntry(LanguageType(0), None, None, map[PackageKey := Value(Str("com.example"))])
    ensures NewJavaGenerator("TestConfig", props).Ok?
    ensures BeforeClass(NewJavaGenerator("TestConfig", props).value) == "package com.example;\n\n"
  {
    assert "package " + "com.example" + ";\n\n" == "package com.example;\n\n";
  }

  /** A regex `a\b` is written with its backslash doubled. */
  lemma RegexScenario()
    ensures PropertyInClass(Property(REGEX, "MY_REGEX", Str("a\\b"), None, None)) ==
      Ok("public final static String MY_REGEX = \"a\\\\b\";")
  {
    assert Escape("a\\b") == "a\\\\b" by {
      assert "a\\b"[1..] == "\\b";
      assert "\\b"[1..] == "b";
      assert "b"[1..] == "";
    }
    assert "public final static " + ("String" + " " + "MY_REGEX" + " = " + ("\"" + "a\\\\b" + "\"")) + ";" ==
      "public final static String MY_REGEX = \"a\\\\b\";";
  }
}
