/**
 * The top-level façade: holds the language configurations, dumps them in
 * order, and derives a configuration's name from the path it is read from.
 */
module Orchestration {
  import opened Results
  import opened Texts
  import opened ConfigParsing

  /** The orchestrator's only field: the language configurations, in input order. */
  datatype Orchestrator = Orchestrator(languageConfigs: seq<LanguageConfig>)

  /** Construction: a missing or empty list becomes the empty list; any other is kept as it is. */
  function NewOrchestrator(configs: Option<seq<LanguageConfig>>): (o: Orchestrator)
    ensures configs.None? ==> o.languageConfigs == []
    ensures configs.Some? ==> o.languageConfigs == configs.value
  {
    match configs
    case None => Orchestrator([])
    case Some(cs) => Orchestrator(cs)
  }

  /** The rendered text of each configuration, one per configuration and in the same order. */
  function DumpAll(configs: seq<LanguageConfig>, dumpConfig: LanguageConfig -> string): (texts: seq<string>)
    ensures |texts| == |configs|
    ensures forall i :: 0 <= i < |configs| ==> texts[i] == dumpConfig(configs[i])
  {
    if configs == [] then [] else [dumpConfig(configs[0])] + DumpAll(configs[1..], dumpConfig)
  }

  /**
   * `dump`: each configuration rendered by its own `dump`, which belongs to
   * the generator base and is taken here as a parameter.
   */
  function Dump(o: Orchestrator, dumpConfig: LanguageConfig -> string): (texts: seq<string>)
    ensures |texts| == |o.languageConfigs|
    ensures forall i :: 0 <= i < |texts| ==> texts[i] == dumpConfig(o.languageConfigs[i])
  {
    DumpAll(o.languageConfigs, dumpConfig)
  }

  /** True when `s` has two backslashes in a row at `k`. */
  predicate DoubleBackslashAt(s: string, k: int)
  {
    0 <= k && k + 1 < |s| && s[k] == '\\' && s[k + 1] == '\\'
  }

  /** `s.replace('\\\\', '/')` on a raw two-character pattern: each backslash pair, left to right, becomes a slash. */
  function ReplaceDoubleBackslash(s: string): (r: string)
    ensures s == [] <==> r == []
    ensures s != [] ==> r[0] == if DoubleBackslashAt(s, 0) then '/' else s[0]
  {
    if s == [] then ""
    else if DoubleBackslashAt(s, 0) then "/" + ReplaceDoubleBackslash(s[2..])
    else [s[0]] + ReplaceDoubleBackslash(s[1..])
  }

  /** Text with no backslash pair is left alone: single backslashes are kept. */
  lemma {:induction false} ReplaceKeepsSingleBackslashes(s: string)
    requires forall k :: 0 <= k < |s| ==> !DoubleBackslashAt(s, k)
    ensures ReplaceDoubleBackslash(s) == s
  {
    if s != [] {
      assert !DoubleBackslashAt(s, 0);
      forall k | 0 <= k < |s| - 1 ensures !DoubleBackslashAt(s[1..], k) {
        assert !DoubleBackslashAt(s, k + 1);
      }
      ReplaceKeepsSingleBackslashes(s[1..]);
      assert s == [s[0]] + s[1..];
    }
  }

  /** No backslash pair survives the replacement. */
  lemma {:induction false} ReplaceLeavesNoPair(s: string)
    ensures forall k :: 0 <= k < |ReplaceDoubleBackslash(s)| ==> !DoubleBackslashAt(ReplaceDoubleBackslash(s), k)
  {
    if s != [] {
      var r := ReplaceDoubleBackslash(s);
      var n := if DoubleBackslashAt(s, 0) then 2 else 1;
      var tail := ReplaceDoubleBackslash(s[n..]);
      ReplaceLeavesNoPair(s[n..]);
      assert r == [r[0]] + tail;
      forall k | 0 <= k < |r| ensures !DoubleBackslashAt(r, k) {
        if k > 0 {
          assert !DoubleBackslashAt(tail, k - 1);
        } else if r[0] == '\\' && |r| > 1 {
          assert n == 1 && s[1..] != [] && !DoubleBackslashAt(s, 0);
          assert tail[0] != '\\';
        }
      }
    }
  }

  /** Text without backslashes is copied as it is, whatever follows it. */
  lemma {:induction false} ReplaceBackslashFree(a: string, b: string)
    requires '\\' !in a
    ensures ReplaceDoubleBackslash(a + b) == a + ReplaceDoubleBackslash(b)
  {
    if a == [] {
      assert a + b == b;
    } else {
      var s := a + b;
      assert s[0] == a[0] && s[1..] == a[1..] + b;
      assert !DoubleBackslashAt(s, 0);
      assert ReplaceDoubleBackslash(s) == [a[0]] + ReplaceDoubleBackslash(a[1..] + b);
      ReplaceBackslashFree(a[1..], b);
      assert a == [a[0]] + a[1..];
    }
  }

  /** A backslash pair after backslash-free text becomes one slash, and the rest is replaced on its own. */
  lemma ReplacePair(a: string, b: string)
    requires '\\' !in a
    ensures ReplaceDoubleBackslash(a + "\\\\" + b) == a + "/" + ReplaceDoubleBackslash(b)
  {
    var c := "\\\\" + b;
    assert a + "\\\\" + b == a + c;
    ReplaceBackslashFree(a, c);
    assert c[2..] == b && DoubleBackslashAt(c, 0);
  }

  /** A single backslash, not followed by another, is kept. */
  lemma ReplaceSingle(a: string, b: string)
    requires '\\' !in a && (b == [] || b[0] != '\\')
    ensures ReplaceDoubleBackslash(a + "\\" + b) == a + "\\" + ReplaceDoubleBackslash(b)
  {
    var c := "\\" + b;
    assert a + "\\" + b == a + c;
    ReplaceBackslashFree(a, c);
    assert c[0] == '\\' && c[1..] == b && !DoubleBackslashAt(c, 0);
    var rb := ReplaceDoubleBackslash(b);
    assert ReplaceDoubleBackslash(c) == [c[0]] + rb;
    assert [c[0]] == "\\";
    Regroup(a, "\\", rb);
  }

  lemma Regroup(x: string, y: string, z: string)
    ensures x + (y + z) == x + y + z
  {
  }

  /** The last path component after turning backslash pairs into slashes. */
  function LastSegment(path: string): string
  {
    var parts := Split(ReplaceDoubleBackslash(path), '/');
    parts[|parts| - 1]
  }

  /**
   * The configuration name of a file path: the last component with its last
   * `.`-extension removed; a component without `.` is kept whole.
   */
  function ConfigName(path: string): string
  {
    var lastPart := LastSegment(path);
    CountCharZero(lastPart, '.');
    if '.' in lastPart then
      var pieces := Split(lastPart, '.');
      Join(pieces[..|pieces| - 1], '.')
    else lastPart
  }

  /**
   * The last component holds no slash and ends the (replaced) path, right
   * after its last slash or as the whole path.
   */
  lemma LastSegmentShape(path: string)
    ensures '/' !in LastSegment(path)
    ensures var replaced := ReplaceDoubleBackslash(path);
      replaced == LastSegment(path) ||
      exists dir :: replaced == dir + "/" + LastSegment(path)
    ensures '/' !in ReplaceDoubleBackslash(path) ==> LastSegment(path) == ReplaceDoubleBackslash(path)
  {
    var replaced := ReplaceDoubleBackslash(path);
    var parts := Split(replaced, '/');
    JoinSplit(replaced, '/');
    CountCharZero(replaced, '/');
    if |parts| >= 2 {
      JoinLast(parts, '/');
      var dir := Join(parts[..|parts| - 1], '/');
      assert replaced == dir + "/" + LastSegment(path);
    }
  }

  /**
   * The configuration name is the last component up to its last `.`: with
   * a `.` in it, the component is the name, a dot and an extension without
   * dots; without one, the name is the whole component. It never holds a
   * slash.
   */
  lemma ConfigNameShape(path: string)
    ensures var lastPart := LastSegment(path);
      '.' in lastPart ==> exists ext :: '.' !in ext && lastPart == ConfigName(path) + "." + ext
    ensures '.' !in LastSegment(path) ==> ConfigName(path) == LastSegment(path)
    ensures '/' !in ConfigName(path)
  {
    var lastPart := LastSegment(path);
    LastSegmentShape(path);
    if '.' in lastPart {
      var pieces := Split(lastPart, '.');
      CountCharZero(lastPart, '.');
      JoinSplit(lastPart, '.');
      JoinLast(pieces, '.');
      var ext := pieces[|pieces| - 1];
      assert lastPart == ConfigName(path) + "." + ext;
      assert forall ch :: ch in ConfigName(path) ==> ch in lastPart;
    }
  }

  /** Text around the last occurrence of a character is determined by the whole. */
  lemma SplitAtLast(x: string, y: string, u: string, v: string, c: char)
    requires x + [c] + y == u + [c] + v
    requires c !in y && c !in v
    ensures x == u && y == v
  {
    var s := x + [c] + y;
    assert s[|x|] == c && s[|u|] == c;
    assert forall k :: |x| < k < |s| ==> s[k] == y[k - |x| - 1];
    assert forall k :: |u| < k < |s| ==> s[k] == v[k - |u| - 1];
    assert |x| == |u|;
    assert s[|s| - |y|..] == y;
    assert s[|s| - |v|..] == v;
    assert s[..|x|] == x;
    assert s[..|u|] == u;
  }

  /**
   * For `dir/base.ext`, with no backslash anywhere, no slash in `base.ext`
   * and no dot in `ext`, the configuration name is `base`, dots and all.
   */
  lemma ConfigNameInDirectory(dir: string, base: string, ext: string)
    requires '\\' !in dir && '\\' !in base && '\\' !in ext
    requires '/' !in base && '/' !in ext && '.' !in ext
    ensures ConfigName(dir + "/" + base + "." + ext) == base
  {
    var file := base + "." + ext;
    var path := dir + "/" + file;
    assert path == dir + "/" + base + "." + ext;
    ReplaceKeepsSingleBackslashes(path);
    LastSegmentShape(path);
    ConfigNameShape(path);
    assert '/' !in file;
    var d :| path == d + "/" + LastSegment(path);
    SplitAtLast(d, LastSegment(path), dir, file, '/');
    var e :| '.' !in e && file == ConfigName(path) + "." + e;
    SplitAtLast(ConfigName(path), e, base, ext, '.');
  }

  /**
   * For `dir\\\\base.ext`, an escaped Windows separator, under the same
   * conditions the configuration name is again `base`.
   */
  lemma ConfigNameInEscapedDirectory(dir: string, base: string, ext: string)
    requires '\\' !in dir && '\\' !in base && '\\' !in ext
    requires '/' !in base && '/' !in ext && '.' !in ext
    ensures ConfigName(dir + "\\\\" + base + "." + ext) == base
  {
    var file := base + "." + ext;
    var escaped := dir + "\\\\" + file;
    var plain := dir + "/" + file;
    assert escaped == dir + "\\\\" + base + "." + ext;
    assert plain == dir + "/" + base + "." + ext;
    ReplacePair(dir, file);
    assert '\\' !in plain;
    ReplaceBackslashFree(file, "");
    ReplaceBackslashFree(plain, "");
    assert plain + "" == plain && file + "" == file;
    assert ReplaceDoubleBackslash(escaped) == ReplaceDoubleBackslash(plain);
    assert LastSegment(escaped) == LastSegment(plain);
    ConfigNameInDirectory(dir, base, ext);
  }

  /** For a bare `base.ext` under the same conditions the name is `base`; `.yaml` gives the empty name. */
  lemma ConfigNameOfBareFile(base: string, ext: string)
    requires '\\' !in base && '\\' !in ext
    requires '/' !in base && '/' !in ext && '.' !in ext
    ensures ConfigName(base + "." + ext) == base
  {
    var path := base + "." + ext;
    ReplaceKeepsSingleBackslashes(path);
    LastSegmentShape(path);
    ConfigNameShape(path);
    assert path[|base|] == '.';
    assert '/' !in path;
    var e :| '.' !in e && path == ConfigName(path) + "." + e;
    SplitAtLast(ConfigName(path), e, base, ext, '.');
  }

  /** `parse_config`: the orchestrator over exactly the list `Config.parse` returns. */
  method ParseConfig(doc: Document, configName: string, registry: seq<LanguageMapping>)
    returns (r: Result<Orchestrator, ConfigError>)
    ensures r.Ok? <==> Parsed(doc, configName, registry).Ok?
    ensures r.Ok? ==> r.value.languageConfigs == Parsed(doc, configName, registry).value
    ensures r.Err? ==> r.error == Parsed(doc, configName, registry).error
  {
    var configs := Parse(doc, configName, registry);
    if configs.Err? {
      return Err(configs.error);
    }
    r := Ok(NewOrchestrator(Some(configs.value)));
  }

  /**
   * `read_config` once the file has been read and its YAML validated: the
   * configuration name comes from the path.
   */
  method ReadConfig(path: string, doc: Document, registry: seq<LanguageMapping>)
    returns (r: Result<Orchestrator, ConfigError>)
    ensures r.Ok? <==> Parsed(doc, ConfigName(path), registry).Ok?
    ensures r.Ok? ==> r.value.languageConfigs == Parsed(doc, ConfigName(path), registry).value
    ensures r.Err? ==> r.error == Parsed(doc, ConfigName(path), registry).error
  {
    r := ParseConfig(doc, ConfigName(path), registry);
  }
}
