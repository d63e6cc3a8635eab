/**
 * The `${name}` substitution pass over string property values: a scanner
 * that finds placeholders of the form `${` + word characters + `}`, resolves
 * each against the whole property list, and rewrites the values in list
 * order.
 */
module Substitution {
  import opened Results
  import opened Properties

  /** Why a substitution failed. */
  datatype SubstError =
    /** A placeholder names the property being processed. */
    | RecursiveSubstitution
    /** No property carries the placeholder's name. */
    | UnknownSubstitution(name: string)
    /** The referenced property's value is not a string, so it cannot be spliced. */
    | NonStringSource(name: string)

  /** A character matched by the regular-expression class `\w` (ASCII part). */
  predicate IsWordChar(ch: char)
  {
    ('a' <= ch <= 'z') || ('A' <= ch <= 'Z') || ('0' <= ch <= '9') || ch == '_'
  }

  /** Length of the longest run of word characters at the start of `t`. */
  function WordRun(t: string): (n: nat)
    ensures n <= |t|
  {
    if t != [] && IsWordChar(t[0]) then 1 + WordRun(t[1..]) else 0
  }

  /** The run holds only word characters and stops at the first other one. */
  lemma {:induction false} WordRunMaximal(t: string)
    ensures forall k :: 0 <= k < WordRun(t) ==> IsWordChar(t[k])
    ensures WordRun(t) < |t| ==> !IsWordChar(t[WordRun(t)])
  {
    if t != [] && IsWordChar(t[0]) {
      WordRunMaximal(t[1..]);
      assert forall k :: 1 <= k < WordRun(t) ==> t[k] == t[1..][k - 1];
    }
  }

  /**
   * The length of the placeholder `s` starts with, if any: `${`, one or more
   * word characters, `}`. The word run is maximal, so the closing brace must
   * follow it directly.
   */
  function PlaceholderLength(s: string): (r: Option<nat>)
    ensures r.Some? ==> 4 <= r.value <= |s|
  {
    if |s| >= 2 && s[0] == '$' && s[1] == '{' then
      var w := WordRun(s[2..]);
      if w > 0 && 2 + w < |s| && s[2 + w] == '}' then Some(w + 3) else None
    else None
  }

  /** The spelling of a placeholder for `name`. */
  function PlaceholderFor(name: string): string
  {
    "${" + name + "}"
  }

  /** A non-empty run of word characters: a name a placeholder can carry. */
  predicate IsWord(name: string)
  {
    name != [] && forall k :: 0 <= k < |name| ==> IsWordChar(name[k])
  }

  /** A scanned piece of a value: one literal character or one placeholder. */
  datatype Token = Literal(c: char) | Placeholder(name: string)

  /**
   * The left-to-right, non-overlapping tokenisation the scanner follows: at
   * each position either a placeholder starts there or the character is
   * literal.
   */
  function Tokens(s: string): seq<Token>
  {
    if s == [] then []
    else
      var (t, n) := Front(s);
      [t] + Tokens(s[n..])
  }

  /** The token that starts a non-empty text, and how many characters it spans. */
  function Front(s: string): (r: (Token, nat))
    requires s != []
    ensures 1 <= r.1 <= |s|
  {
    match PlaceholderLength(s)
    case Some(n) => (Placeholder(s[2..n - 1]), n)
    case None => (Literal(s[0]), 1)
  }

  /** A recognised placeholder is `${`, a word, then `}`. */
  lemma PlaceholderShape(s: string)
    requires PlaceholderLength(s).Some?
    ensures var n := PlaceholderLength(s).value;
      s[..n] == PlaceholderFor(s[2..n - 1]) && IsWord(s[2..n - 1])
  {
    var n := PlaceholderLength(s).value;
    var name := s[2..n - 1];
    WordRunMaximal(s[2..]);
    assert forall k :: 0 <= k < |name| ==> name[k] == s[2..][k];
    assert s[..n] == "${" + name + "}";
  }

  /** Writing tokens back out as text. */
  function Spelled(ts: seq<Token>): string
  {
    if ts == [] then ""
    else match ts[0]
      case Literal(c) => [c] + Spelled(ts[1..])
      case Placeholder(name) => PlaceholderFor(name) + Spelled(ts[1..])
  }

  /** Tokenising loses nothing: spelling the tokens gives back the value. */
  lemma {:induction false} TokensRoundTrip(s: string)
    ensures Spelled(Tokens(s)) == s
  {
    if s != [] {
      match PlaceholderLength(s)
      case Some(n) =>
        TokensRoundTrip(s[n..]);
        PlaceholderShape(s);
        assert s == s[..n] + s[n..];
      case None =>
        TokensRoundTrip(s[1..]);
        assert s == [s[0]] + s[1..];
    }
  }

  /** Every placeholder the tokeniser finds carries a non-empty word. */
  lemma {:induction false} TokenNamesAreWords(s: string)
    ensures forall k :: 0 <= k < |Tokens(s)| && Tokens(s)[k].Placeholder? ==> IsWord(Tokens(s)[k].name)
  {
    if s != [] {
      var ts := Tokens(s);
      var m := if PlaceholderLength(s).Some? then PlaceholderLength(s).value else 1;
      var tail := Tokens(s[m..]);
      TokenNamesAreWords(s[m..]);
      assert ts[1..] == tail;
      if PlaceholderLength(s).Some? {
        PlaceholderShape(s);
      }
      forall k | 0 <= k < |ts| && ts[k].Placeholder?
        ensures IsWord(ts[k].name)
      {
        if k > 0 {
          assert ts[k] == tail[k - 1];
        }
      }
    }
  }

  /** A placeholder at the front of a value is recognised whatever follows it. */
  lemma PlaceholderAtFront(name: string, rest: string)
    requires IsWord(name)
    ensures PlaceholderLength(PlaceholderFor(name) + rest) == Some(|name| + 3)
    ensures Tokens(PlaceholderFor(name) + rest) == [Placeholder(name)] + Tokens(rest)
  {
    var s := PlaceholderFor(name) + rest;
    WordRunOfWord(name, "}" + rest);
    assert s[2..] == name + ("}" + rest);
    assert s[2..|name| + 2] == name;
    assert s[|name| + 3..] == rest;
  }

  lemma {:induction false} WordRunOfWord(name: string, tail: string)
    requires forall k :: 0 <= k < |name| ==> IsWordChar(name[k])
    requires tail != [] && !IsWordChar(tail[0])
    ensures WordRun(name + tail) == |name|
  {
    if name != [] {
      WordRunOfWord(name[1..], tail);
      assert (name + tail)[1..] == name[1..] + tail;
    }
  }

  /** `j` is the position of the first property called `name`. */
  predicate FirstWith(ps: seq<Property>, j: int, name: string)
  {
    0 <= j < |ps| && ps[j].name == name && forall i :: 0 <= i < j ==> ps[i].name != name
  }

  /** Index of the first property called `name`, if there is one. */
  function FirstNamed(ps: seq<Property>, name: string): (r: Option<nat>)
    ensures r.None? <==> forall j :: 0 <= j < |ps| ==> ps[j].name != name
    ensures r.Some? ==> FirstWith(ps, r.value, name)
    ensures forall j :: FirstWith(ps, j, name) ==> r.Some? && r.value == j
  {
    if ps == [] then None
    else if ps[0].name == name then Some(0)
    else
      var rest := FirstNamed(ps[1..], name);
      assert forall j :: FirstWith(ps, j, name) <==> j >= 1 && FirstWith(ps[1..], j - 1, name) by {
        forall j ensures FirstWith(ps, j, name) <==> j >= 1 && FirstWith(ps[1..], j - 1, name) {
          if j >= 1 && FirstWith(ps[1..], j - 1, name) {
            assert forall i :: 1 <= i < j ==> ps[i] == ps[1..][i - 1];
          }
        }
      }
      match rest
      case None => None
      case Some(k) => Some(k + 1)
  }

  /**
   * What the replacement callback returns for a placeholder naming `name`
   * inside the value of the property called `current`: self-reference is
   * refused first, then the value of the first property of that name in
   * `ps` is returned, whatever its kind.
   */
  function Resolve(name: string, current: string, ps: seq<Property>): (r: Result<Scalar, SubstError>)
    ensures r == Err(RecursiveSubstitution) <==> name == current
    ensures r == Err(UnknownSubstitution(name)) <==>
      name != current && forall j :: 0 <= j < |ps| ==> ps[j].name != name
    ensures forall j :: FirstWith(ps, j, name) && name != current ==> r == Ok(ps[j].value)
    ensures r.Err? ==> r.error in {RecursiveSubstitution, UnknownSubstitution(name)}
  {
    if name == current then Err(RecursiveSubstitution)
    else match FirstNamed(ps, name)
      case None => Err(UnknownSubstitution(name))
      case Some(k) => Ok(ps[k].value)
  }

  /**
   * The text one token contributes to the joined result. A literal is
   * itself. A placeholder contributes the value of the first property of
   * that name when it is a string; a value of another kind is marked
   * `NonStringSource`, the failure the final join raises for it; a refused
   * reference carries the callback's error.
   */
  function Piece(t: Token, current: string, ps: seq<Property>): (r: Result<string, SubstError>)
    ensures t.Literal? ==> r == Ok([t.c])
    ensures t.Placeholder? ==> (r == Err(RecursiveSubstitution) <==> t.name == current)
    ensures t.Placeholder? ==> (r == Err(UnknownSubstitution(t.name)) <==>
      t.name != current && forall j :: 0 <= j < |ps| ==> ps[j].name != t.name)
    ensures forall j :: t.Placeholder? && t.name != current && FirstWith(ps, j, t.name) ==>
      r == (if ps[j].value.Str? then Ok(ps[j].value.s) else Err(NonStringSource(t.name)))
    ensures r.Err? ==>
      t.Placeholder? && r.error in {RecursiveSubstitution, UnknownSubstitution(t.name), NonStringSource(t.name)}
  {
    match t
    case Literal(c) => Ok([c])
    case Placeholder(name) =>
      match Resolve(name, current, ps)
      case Err(e) => Err(e)
      case Ok(v) => if v.Str? then Ok(v.s) else Err(NonStringSource(name))
  }

  /** The callback raised: the scan stops there. A non-string value does not stop it. */
  predicate Raised(r: Result<string, SubstError>)
  {
    r.Err? && !r.error.NonStringSource?
  }

  /**
   * Two consecutive stretches of one scan, combined. The callbacks run in
   * order and the first one that raises ends the scan; only when none
   * raises are the items joined, and the join fails at the first item that
   * is not a string; otherwise the texts are concatenated.
   */
  function Then(a: Result<string, SubstError>, b: Result<string, SubstError>): (r: Result<string, SubstError>)
    ensures Raised(r) <==> Raised(a) || Raised(b)
    ensures r.Ok? <==> a.Ok? && b.Ok?
    ensures r.Ok? ==> r.value == a.value + b.value
    ensures r.Err? ==> (r == a && a.Err? && (Raised(a) || !Raised(b))) || (r == b && !Raised(a) && (Raised(b) || a.Ok?))
  {
    if Raised(a) then a
    else if Raised(b) then b
    else if a.Err? then a
    else if b.Err? then b
    else Ok(a.value + b.value)
  }

  lemma ThenLaws(a: Result<string, SubstError>, b: Result<string, SubstError>, c: Result<string, SubstError>)
    ensures Then(Ok(""), a) == a && Then(a, Ok("")) == a
    ensures Then(a, Then(b, c)) == Then(Then(a, b), c)
  {
    if a.Ok? {
      assert "" + a.value == a.value && a.value + "" == a.value;
      if b.Ok? && c.Ok? {
        assert a.value + (b.value + c.value) == (a.value + b.value) + c.value;
      }
    }
  }

  /** Splices the replacement of each placeholder in; literal characters stay. */
  function ExpandTokens(ts: seq<Token>, current: string, ps: seq<Property>): Result<string, SubstError>
  {
    if ts == [] then Ok("")
    else Then(Piece(ts[0], current, ps), ExpandTokens(ts[1..], current, ps))
  }

  /** The new text of a string value of the property `current`, or the failure `re.sub` raises. */
  function Expand(s: string, current: string, ps: seq<Property>): Result<string, SubstError>
  {
    ExpandTokens(Tokens(s), current, ps)
  }

  /**
   * Expansion succeeds exactly when every token contributes text. It fails
   * with a callback error exactly when some callback raises, and then with
   * that of the first one; otherwise it fails at the first token whose
   * value is not a string.
   */
  lemma ExpandTokensOutcome(ts: seq<Token>, current: string, ps: seq<Property>)
    ensures ExpandTokens(ts, current, ps).Ok? <==> forall k :: 0 <= k < |ts| ==> Piece(ts[k], current, ps).Ok?
    ensures Raised(ExpandTokens(ts, current, ps)) <==> exists k :: 0 <= k < |ts| && Raised(Piece(ts[k], current, ps))
    ensures Raised(ExpandTokens(ts, current, ps)) ==>
      exists k :: 0 <= k < |ts| && Piece(ts[k], current, ps) == ExpandTokens(ts, current, ps) &&
        forall j :: 0 <= j < k ==> !Raised(Piece(ts[j], current, ps))
    ensures ExpandTokens(ts, current, ps).Err? && !Raised(ExpandTokens(ts, current, ps)) ==>
      exists k :: 0 <= k < |ts| && Piece(ts[k], current, ps) == ExpandTokens(ts, current, ps) &&
        forall j :: 0 <= j < k ==> Piece(ts[j], current, ps).Ok?
  {
    ExpandTokensOk(ts, current, ps);
    ExpandTokensRaised(ts, current, ps);
    ExpandTokensJoinFailure(ts, current, ps);
  }

  lemma {:induction false} ExpandTokensOk(ts: seq<Token>, current: string, ps: seq<Property>)
    ensures ExpandTokens(ts, current, ps).Ok? <==> forall k :: 0 <= k < |ts| ==> Piece(ts[k], current, ps).Ok?
  {
    if ts != [] {
      ExpandTokensOk(ts[1..], current, ps);
      assert forall k :: 1 <= k < |ts| ==> ts[k] == ts[1..][k - 1];
    }
  }

  lemma {:induction false} ExpandTokensRaised(ts: seq<Token>, current: string, ps: seq<Property>)
    ensures Raised(ExpandTokens(ts, current, ps)) ==>
      exists k :: 0 <= k < |ts| && Piece(ts[k], current, ps) == ExpandTokens(ts, current, ps) &&
        forall j :: 0 <= j < k ==> !Raised(Piece(ts[j], current, ps))
    ensures (exists k :: 0 <= k < |ts| && Raised(Piece(ts[k], current, ps))) ==> Raised(ExpandTokens(ts, current, ps))
  {
    if ts != [] {
      var head, tail := Piece(ts[0], current, ps), ExpandTokens(ts[1..], current, ps);
      var r := ExpandTokens(ts, current, ps);
      assert r == Then(head, tail);
      ExpandTokensRaised(ts[1..], current, ps);
      assert forall k :: 1 <= k < |ts| ==> ts[k] == ts[1..][k - 1];
      if Raised(r) && !Raised(head) {
        var k :| 0 <= k < |ts[1..]| && Piece(ts[1..][k], current, ps) == tail &&
          forall j :: 0 <= j < k ==> !Raised(Piece(ts[1..][j], current, ps));
        assert Piece(ts[k + 1], current, ps) == r;
      }
    }
  }

  lemma {:induction false} ExpandTokensJoinFailure(ts: seq<Token>, current: string, ps: seq<Property>)
    ensures ExpandTokens(ts, current, ps).Err? && !Raised(ExpandTokens(ts, current, ps)) ==>
      exists k :: 0 <= k < |ts| && Piece(ts[k], current, ps) == ExpandTokens(ts, current, ps) &&
        forall j :: 0 <= j < k ==> Piece(ts[j], current, ps).Ok?
  {
    if ts != [] {
      var head, tail := Piece(ts[0], current, ps), ExpandTokens(ts[1..], current, ps);
      var r := ExpandTokens(ts, current, ps);
      assert r == Then(head, tail);
      ExpandTokensJoinFailure(ts[1..], current, ps);
      if r.Err? && !Raised(r) && head.Err? {
        assert Piece(ts[0], current, ps) == r;
      } else if r.Err? && !Raised(r) {
        assert tail.Err? && !Raised(tail);
        var k :| 0 <= k < |ts[1..]| && Piece(ts[1..][k], current, ps) == tail &&
          forall j :: 0 <= j < k ==> Piece(ts[1..][j], current, ps).Ok?;
        assert forall j :: 1 <= j <= k ==> ts[j] == ts[1..][j - 1];
        assert Piece(ts[k + 1], current, ps) == r;
      }
    }
  }

  /** With no placeholder in it, a value comes out unchanged. */
  lemma {:induction false} ExpandLiterals(ts: seq<Token>, current: string, ps: seq<Property>)
    requires forall k :: 0 <= k < |ts| ==> ts[k].Literal?
    ensures ExpandTokens(ts, current, ps) == Ok(Spelled(ts))
  {
    if ts != [] {
      ExpandLiterals(ts[1..], current, ps);
    }
  }

  /** Text without placeholders is left exactly as it is. */
  lemma NoPlaceholderUnchanged(s: string, current: string, ps: seq<Property>)
    requires forall k :: 0 <= k < |Tokens(s)| ==> Tokens(s)[k].Literal?
    ensures Expand(s, current, ps) == Ok(s)
  {
    ExpandLiterals(Tokens(s), current, ps);
    TokensRoundTrip(s);
  }

  /**
   * A placeholder at the front is replaced by the referenced value, and
   * scanning resumes after the placeholder: the inserted text is never
   * scanned again. A non-string value does not stop the scan: a later
   * refused reference still wins over it.
   */
  lemma ExpandSplice(name: string, rest: string, current: string, ps: seq<Property>)
    requires IsWord(name)
    ensures Expand(PlaceholderFor(name) + rest, current, ps) ==
      match Resolve(name, current, ps)
      case Err(e) => Err(e)
      case Ok(v) =>
        if v.Str? then Prefixed(v.s, Expand(rest, current, ps))
        else if Raised(Expand(rest, current, ps)) then Expand(rest, current, ps)
        else Err(NonStringSource(name))
  {
    PlaceholderAtFront(name, rest);
    var ts := Tokens(PlaceholderFor(name) + rest);
    assert ts[1..] == Tokens(rest);
  }

  /** Text without a `$` is copied as it is, whatever follows it. */
  lemma {:induction false} ExpandDollarFree(t: string, rest: string, current: string, ps: seq<Property>)
    requires '$' !in t
    ensures Expand(t + rest, current, ps) == Prefixed(t, Expand(rest, current, ps))
  {
    if t == [] {
      assert t + rest == rest;
      PrefixedTwice("", "", Expand(rest, current, ps));
    } else {
      var s := t + rest;
      assert s[0] == t[0] && s[1..] == t[1..] + rest;
      assert Tokens(s) == [Literal(t[0])] + Tokens(s[1..]);
      assert Tokens(s)[1..] == Tokens(s[1..]);
      ExpandDollarFree(t[1..], rest, current, ps);
      PrefixedTwice([t[0]], t[1..], Expand(rest, current, ps));
      assert [t[0]] + t[1..] == t;
    }
  }
  /** Text without a `$` expands to itself. */
  lemma NoDollarUnchanged(t: string, current: string, ps: seq<Property>)
    requires '$' !in t
    ensures Expand(t, current, ps) == Ok(t)
  {
    ExpandDollarFree(t, "", current, ps);
    assert t + "" == t;
    assert Tokens("") == [];
  }

  /**
   * A value with one placeholder between placeholder-free texts becomes
   * those texts around the referenced value, or fails as the reference does.
   */
  lemma ExpandOnePlaceholder(before: string, name: string, after: string, current: string, ps: seq<Property>)
    requires '$' !in before && '$' !in after && IsWord(name)
    ensures Expand(before + PlaceholderFor(name) + after, current, ps) ==
      match Resolve(name, current, ps)
      case Err(e) => Err(e)
      case Ok(v) => if v.Str? then Ok(before + v.s + after) else Err(NonStringSource(name))
  {
    var p := PlaceholderFor(name);
    assert before + p + after == before + (p + after);
    ExpandDollarFree(before, p + after, current, ps);
    ExpandSplice(name, after, current, ps);
    NoDollarUnchanged(after, current, ps);
    match Resolve(name, current, ps) {
      case Err(_) =>
      case Ok(v) => if v.Str? { assert before + (v.s + after) == before + v.s + after; }
    }
  }

  /** A value naming its own property fails; and only such a value fails with `RecursiveSubstitution`. */
  lemma SelfReference(s: string, current: string, ps: seq<Property>)
    ensures Placeholder(current) in Tokens(s) ==> Expand(s, current, ps).Err?
    ensures Expand(s, current, ps) == Err(RecursiveSubstitution) ==> Placeholder(current) in Tokens(s)
  {
    var ts := Tokens(s);
    ExpandTokensOutcome(ts, current, ps);
    if Placeholder(current) in ts {
      var k :| 0 <= k < |ts| && ts[k] == Placeholder(current);
      assert Raised(Piece(ts[k], current, ps));
    }
  }

  /**
   * A value naming a property that is not in the list fails;
   * `UnknownSubstitution(n)` only comes from a placeholder for `n` that is
   * neither the current property nor any property in the list.
   */
  lemma UnknownReference(s: string, n: string, current: string, ps: seq<Property>)
    ensures Placeholder(n) in Tokens(s) && (forall j :: 0 <= j < |ps| ==> ps[j].name != n) ==>
      Expand(s, current, ps).Err?
    ensures Expand(s, current, ps) == Err(UnknownSubstitution(n)) ==>
      Placeholder(n) in Tokens(s) && n != current && forall j :: 0 <= j < |ps| ==> ps[j].name != n
  {
    var ts := Tokens(s);
    ExpandTokensOutcome(ts, current, ps);
    if Placeholder(n) in ts && (forall j :: 0 <= j < |ps| ==> ps[j].name != n) {
      var k :| 0 <= k < |ts| && ts[k] == Placeholder(n);
      assert Raised(Piece(ts[k], current, ps));
    }
  }

  /**
   * A value whose references all resolve, one of them to a property holding
   * a number or a boolean, fails with `NonStringSource` for the first such
   * reference, however many placeholders follow it.
   */
  lemma NonStringReference(s: string, current: string, ps: seq<Property>)
    requires forall k :: 0 <= k < |Tokens(s)| ==> !Raised(Piece(Tokens(s)[k], current, ps))
    ensures Expand(s, current, ps).Err? <==> exists k :: 0 <= k < |Tokens(s)| && Piece(Tokens(s)[k], current, ps).Err?
    ensures Expand(s, current, ps).Err? ==>
      exists k :: 0 <= k < |Tokens(s)| && Tokens(s)[k].Placeholder? &&
        Expand(s, current, ps) == Err(NonStringSource(Tokens(s)[k].name)) &&
        forall j :: 0 <= j < k ==> Piece(Tokens(s)[j], current, ps).Ok?
  {
    ExpandTokensOutcome(Tokens(s), current, ps);
  }

  /**
   * A value `${F}${M}`, where `F` resolves to a number or boolean and the
   * reference `M` is refused, fails with `M`'s error: the non-string `F`
   * would only fail the join, which the raising callback never lets the
   * scan reach.
   */
  lemma NonStringThenRaise(f: string, m: string, current: string, ps: seq<Property>)
    requires IsWord(f) && IsWord(m)
    requires Resolve(f, current, ps).Ok? && !Resolve(f, current, ps).value.Str?
    requires Resolve(m, current, ps).Err?
    ensures Expand(PlaceholderFor(f) + PlaceholderFor(m), current, ps) == Err(Resolve(m, current, ps).error)
  {
    var missing := PlaceholderFor(m);
    ExpandSplice(f, missing, current, ps);
    ExpandOnePlaceholder("", m, "", current, ps);
    assert "" + missing + "" == missing;
  }

  /**
   * The same in a property list: with `F` holding a number or boolean and
   * `M` naming no property, the pass fails because `M` is unknown.
   */
  lemma LaterUnknownWins(source: Property, other: Property, m: string)
    requires IsWord(source.name) && IsWord(m) && !source.value.Str?
    requires other.value == Str(PlaceholderFor(source.name) + PlaceholderFor(m))
    requires other.name != source.name && m != source.name && m != other.name
    ensures Substituted([source, other]) == Err(UnknownSubstitution(m))
  {
    var ps := [source, other];
    assert SubstituteFrom(ps, 0) == SubstituteFrom(ps, 1);
    assert Resolve(source.name, other.name, ps) == Ok(source.value) by {
      assert FirstWith(ps, 0, source.name);
    }
    NonStringThenRaise(source.name, m, other.name, ps);
  }

  /** Two lists with the same names, and string values at the same places. */
  predicate SameKinds(ps: seq<Property>, qs: seq<Property>)
  {
    |ps| == |qs| &&
    forall k :: 0 <= k < |ps| ==> ps[k].name == qs[k].name && ps[k].value.Str? == qs[k].value.Str?
  }

  /** The failure of an outcome, if it is one. */
  function FailureOf(r: Result<string, SubstError>): Option<SubstError>
  {
    if r.Err? then Some(r.error) else None
  }

  /**
   * Whether and how expansion fails depends only on the names and on which
   * values are strings, not on the text of the values it would splice in.
   */
  lemma {:induction false} ExpandFailureByKinds(ts: seq<Token>, current: string, ps: seq<Property>, qs: seq<Property>)
    requires SameKinds(ps, qs)
    ensures FailureOf(ExpandTokens(ts, current, ps)) == FailureOf(ExpandTokens(ts, current, qs))
  {
    if ts != [] {
      ExpandFailureByKinds(ts[1..], current, ps, qs);
      PieceFailureByKinds(ts[0], current, ps, qs);
      ThenFailure(Piece(ts[0], current, ps), ExpandTokens(ts[1..], current, ps),
                  Piece(ts[0], current, qs), ExpandTokens(ts[1..], current, qs));
    }
  }

  lemma PieceFailureByKinds(t: Token, current: string, ps: seq<Property>, qs: seq<Property>)
    requires SameKinds(ps, qs)
    ensures FailureOf(Piece(t, current, ps)) == FailureOf(Piece(t, current, qs))
  {
    if t.Placeholder? && t.name != current {
      FirstNamedByNames(ps, qs, t.name);
    }
  }

  lemma ThenFailure(a: Result<string, SubstError>, b: Result<string, SubstError>,
                    c: Result<string, SubstError>, d: Result<string, SubstError>)
    requires FailureOf(a) == FailureOf(c) && FailureOf(b) == FailureOf(d)
    ensures FailureOf(Then(a, b)) == FailureOf(Then(c, d))
  {
  }

  lemma FirstNamedByNames(ps: seq<Property>, qs: seq<Property>, name: string)
    requires SameKinds(ps, qs)
    ensures FirstNamed(ps, name) == FirstNamed(qs, name)
  {
  }

  /** `out` put in front of a successful expansion; a failure stays a failure. */
  function Prefixed(out: string, r: Result<string, SubstError>): Result<string, SubstError>
  {
    match r
    case Err(e) => Err(e)
    case Ok(tail) => Ok(out + tail)
  }

  lemma PrefixedTwice(out: string, v: string, r: Result<string, SubstError>)
    ensures Prefixed("", r) == r
    ensures Prefixed(out, Prefixed(v, r)) == Prefixed(out + v, r)
    ensures Then(Ok(out), r) == Prefixed(out, r)
  {
    if r.Ok? {
      assert "" + r.value == r.value;
      assert out + (v + r.value) == (out + v) + r.value;
    }
  }

  /** Expanding a token in front of others. */
  lemma ExpandCons(t: Token, ts: seq<Token>, current: string, ps: seq<Property>)
    ensures ExpandTokens([t] + ts, current, ps) == Then(Piece(t, current, ps), ExpandTokens(ts, current, ps))
  {
    assert ([t] + ts)[1..] == ts;
  }

  lemma TokensFront(s: string)
    requires s != []
    ensures Tokens(s) == [Front(s).0] + Tokens(s[Front(s).1..])
  {
  }

  /** Expanding a text from position `i` is replacing the token there, then expanding what follows it. */
  lemma ExpandFront(s: string, i: nat, t: Token, n: nat, current: string, ps: seq<Property>)
    requires i < |s| && Front(s[i..]) == (t, n)
    ensures i + n <= |s|
    ensures Expand(s[i..], current, ps) == Then(Piece(t, current, ps), Expand(s[i + n..], current, ps))
  {
    var rest := s[i..];
    TokensFront(rest);
    ExpandCons(t, Tokens(rest[n..]), current, ps);
    assert rest[n..] == s[i + n..];
  }

  /**
   * One match of the scan at position `i`: what the token starting there
   * contributes (the placeholder's value, or the character itself) and the
   * position after it.
   */
  method ScanStep(s: string, i: nat, current: string, ps: seq<Property>) returns (piece: Result<string, SubstError>, next: nat)
    requires i < |s|
    ensures i < next <= |s|
    ensures piece == Piece(Front(s[i..]).0, current, ps) && next == i + Front(s[i..]).1
    ensures Expand(s[i..], current, ps) == Then(piece, Expand(s[next..], current, ps))
  {
    var (t, n) := Front(s[i..]);
    ExpandFront(s, i, t, n, current, ps);
    piece := Piece(t, current, ps);
    next := i + n;
  }

  /** The joined items so far: their text, or the failure at the first non-string one. */
  function Joined(out: string, bad: Option<string>): (r: Result<string, SubstError>)
    ensures !Raised(r)
  {
    if bad.Some? then Err(NonStringSource(bad.value)) else Ok(out)
  }

  /**
   * The explicit scanner that replaces one `re.sub` call: walks the value
   * once, collecting literal characters and the value of each placeholder;
   * a refused reference ends the scan, and once the scan is over the join
   * fails at the first value that is not a string.
   */
  method ExpandValue(s: string, current: string, ps: seq<Property>) returns (r: Result<string, SubstError>)
    ensures r == Expand(s, current, ps)
  {
    ghost var whole := Expand(s, current, ps);
    var out := "";
    var bad: Option<string> := None;
    var i := 0;
    assert s[i..] == s;
    ThenLaws(whole, whole, whole);
    while i < |s|
      invariant 0 <= i <= |s|
      invariant whole == Then(Joined(out, bad), Expand(s[i..], current, ps))
    {
      var piece, next := ScanStep(s, i, current, ps);
      ThenLaws(Joined(out, bad), piece, Expand(s[next..], current, ps));
      if Raised(piece) {
        return piece;
      }
      if piece.Err? {
        if bad.None? {
          bad := Some(piece.error.name);
        }
      } else {
        PrefixedTwice(out, piece.value, Expand(s[next..], current, ps));
        out := out + piece.value;
      }
      i := next;
    }
    assert s[i..] == [];
    ThenLaws(Joined(out, bad), whole, whole);
    r := Joined(out, bad);
  }

  /**
   * The substitution loop from position `i` on: each string value is
   * expanded against the list as it stands, so properties before it already
   * carry their new values; other values are never touched.
   */
  function SubstituteFrom(ps: seq<Property>, i: nat): Result<seq<Property>, SubstError>
    decreases |ps| - i
  {
    if i >= |ps| then Ok(ps)
    else if ps[i].value.Str? then
      match Expand(ps[i].value.s, ps[i].name, ps)
      case Err(e) => Err(e)
      case Ok(x) => SubstituteFrom(ps[i := ps[i].(value := Str(x))], i + 1)
    else SubstituteFrom(ps, i + 1)
  }

  /** The whole substitution pass over a property list. */
  function Substituted(ps: seq<Property>): Result<seq<Property>, SubstError>
  {
    SubstituteFrom(ps, 0)
  }

  /** The substitution loop, rewriting the values of the list in place. */
  method SubstituteAll(ps: seq<Property>) returns (r: Result<seq<Property>, SubstError>)
    ensures r == Substituted(ps)
  {
    var properties := ps;
    var i := 0;
    while i < |properties|
      invariant 0 <= i <= |properties|
      invariant Substituted(ps) == SubstituteFrom(properties, i)
    {
      var p := properties[i];
      if p.value.Str? {
        var expanded := ExpandValue(p.value.s, p.name, properties);
        if expanded.Err? {
          return Err(expanded.error);
        }
        properties := properties[i := p.(value := Str(expanded.value))];
      }
      i := i + 1;
    }
    r := Ok(properties);
  }

  /** `q` is `p` with at most its value changed. */
  predicate SameButValue(p: Property, q: Property)
  {
    p.(value := q.value) == q
  }

  /**
   * What the pass leaves at each index: the same property, and a string
   * value replaced by its expansion against the list as it stood then —
   * new values before it, original values from it on.
   */
  lemma SubstitutedValues(ps: seq<Property>, qs: seq<Property>)
    requires Substituted(ps) == Ok(qs)
    ensures |qs| == |ps|
    ensures forall k :: 0 <= k < |ps| ==> SameButValue(ps[k], qs[k])
    ensures forall k :: 0 <= k < |ps| && !ps[k].value.Str? ==> qs[k].value == ps[k].value
    ensures forall k :: 0 <= k < |ps| && ps[k].value.Str? ==>
      qs[k].value.Str? && Expand(ps[k].value.s, ps[k].name, qs[..k] + ps[k..]) == Ok(qs[k].value.s)
  {
    SubstituteFromValues(ps, 0, qs);
    assert forall k :: 0 <= k < |ps| ==> ps[..k] + ps[k..] == ps;
  }

  lemma {:induction false} SubstituteFromValues(cur: seq<Property>, i: nat, qs: seq<Property>)
    requires SubstituteFrom(cur, i) == Ok(qs)
    ensures |qs| == |cur|
    ensures forall k :: 0 <= k < i && k < |cur| ==> qs[k] == cur[k]
    ensures forall k :: i <= k < |cur| ==> SameButValue(cur[k], qs[k])
    ensures forall k :: i <= k < |cur| && !cur[k].value.Str? ==> qs[k].value == cur[k].value
    ensures forall k :: i <= k < |cur| && cur[k].value.Str? ==>
      qs[k].value.Str? && Expand(cur[k].value.s, cur[k].name, qs[..k] + cur[k..]) == Ok(qs[k].value.s)
    decreases |cur| - i
  {
    if i < |cur| {
      if cur[i].value.Str? {
        var x := Expand(cur[i].value.s, cur[i].name, cur).value;
        var next := cur[i := cur[i].(value := Str(x))];
        SubstituteFromValues(next, i + 1, qs);
        assert qs[..i] == cur[..i];
        assert cur == qs[..i] + cur[i..];
        forall k | i < k < |cur|
          ensures qs[..k] + next[k..] == qs[..k] + cur[k..]
        {
          assert next[k..] == cur[k..];
        }
      } else {
        SubstituteFromValues(cur, i + 1, qs);
      }
    }
  }

  /** The expansion of the string value at `k` against `ps` succeeds. */
  predicate ExpandsAt(ps: seq<Property>, k: nat)
    requires k < |ps|
  {
    ps[k].value.Str? ==> Expand(ps[k].value.s, ps[k].name, ps).Ok?
  }

  /**
   * The pass succeeds exactly when every string value would expand against
   * the original list; when it fails, it fails with the error of the first
   * value that does not.
   */
  lemma SubstitutedOutcome(ps: seq<Property>)
    ensures Substituted(ps).Ok? <==> forall k :: 0 <= k < |ps| ==> ExpandsAt(ps, k)
    ensures Substituted(ps).Err? ==>
      exists k :: 0 <= k < |ps| && ps[k].value.Str? &&
        Expand(ps[k].value.s, ps[k].name, ps) == Err(Substituted(ps).error) &&
        forall j :: 0 <= j < k ==> ExpandsAt(ps, j)
  {
    SubstituteFromOutcome(ps, 0, ps);
  }

  lemma {:induction false} SubstituteFromOutcome(cur: seq<Property>, i: nat, ps: seq<Property>)
    requires SameKinds(cur, ps)
    requires i <= |ps| && cur[i..] == ps[i..]
    ensures SubstituteFrom(cur, i).Ok? <==> forall k :: i <= k < |ps| ==> ExpandsAt(ps, k)
    ensures SubstituteFrom(cur, i).Err? ==>
      exists k :: i <= k < |ps| && ps[k].value.Str? &&
        Expand(ps[k].value.s, ps[k].name, ps) == Err(SubstituteFrom(cur, i).error) &&
        forall j :: i <= j < k ==> ExpandsAt(ps, j)
    decreases |ps| - i
  {
    if i < |ps| {
      assert cur[i] == ps[i] by { assert cur[i..][0] == ps[i..][0]; }
      var r := SubstituteFrom(cur, i);
      var next := cur;
      if ps[i].value.Str? {
        var s, name := ps[i].value.s, ps[i].name;
        ExpandFailureByKinds(Tokens(s), name, cur, ps);
        var here := Expand(s, name, cur);
        if here.Err? {
          assert Expand(s, name, ps) == here;
          assert r == Err(here.error);
          assert !ExpandsAt(ps, i);
          return;
        }
        next := cur[i := cur[i].(value := Str(here.value))];
        assert SameKinds(next, ps);
      }
      assert r == SubstituteFrom(next, i + 1);
      assert ExpandsAt(ps, i);
      assert next[i + 1..] == ps[i + 1..] by { assert cur[i + 1..] == cur[i..][1..]; }
      SubstituteFromOutcome(next, i + 1, ps);
      if r.Err? {
        var k :| i + 1 <= k < |ps| && ps[k].value.Str? &&
          Expand(ps[k].value.s, ps[k].name, ps) == Err(r.error) &&
          forall j :: i + 1 <= j < k ==> ExpandsAt(ps, j);
        assert forall j :: i <= j < k ==> ExpandsAt(ps, j);
      }
    }
  }
}
