/** The `.env` check at start-up: both the template and the environment file are read as
    `KEY=VALUE` lines, and every key of the template must be set in the environment file.
    A file is given as the lines Python iterates over, each with its line break. */
module Env {
  import opened Wrappers
  import opened Text

  /** Why the check raises. */
  datatype EnvError =
    | FileNotFound(message: string)
      /** `dict` got a line that does not split in two; `element` counts the lines it had
          already taken. */
    | NotAPair(element: nat)
    | MissingKeys(message: string)

  /** A line takes part unless it is blank or, as read, starts with `#`. */
  predicate Kept(line: string) {
    Strip(line) != [] && !(|line| > 0 && line[0] == '#')
  }

  /** The position of the first `c` in `s`, or `|s|`. */
  function FirstIndexOf(s: string, c: char): (i: nat)
    ensures i <= |s| && (i < |s| ==> s[i] == c)
    ensures forall j :: 0 <= j < i ==> s[j] != c
    decreases |s|
  {
    if s == [] then 0
    else if s[0] == c then 0
    else
      var i := FirstIndexOf(s[1..], c);
      assert forall j :: 1 <= j < i + 1 ==> s[j] == s[1..][j - 1];
      1 + i
  }

  /** `line.strip().split('=', 1)`: a pair, or a single piece when there is no `=`. */
  datatype Entry = Pair(key: string, value: string) | Single(text: string)

  function EntryOf(line: string): Entry {
    var s := Strip(line);
    var i := FirstIndexOf(s, '=');
    if i == |s| then Single(s) else Pair(s[..i], s[i + 1..])
  }

  /** The split is at the first `=`: the key has none, the value keeps any further ones, and
      joining them back gives the stripped line. */
  lemma EntryOfSplits(line: string)
    ensures EntryOf(line).Single? ==> '=' !in Strip(line) && EntryOf(line).text == Strip(line)
    ensures EntryOf(line).Pair? ==>
      (Strip(line) == EntryOf(line).key + "=" + EntryOf(line).value && '=' !in EntryOf(line).key)
  {
    var s := Strip(line);
    var i := FirstIndexOf(s, '=');
    if i < |s| {
      assert s == s[..i] + "=" + s[i + 1..];
      assert forall j :: 0 <= j < i ==> s[..i][j] == s[j];
    } else {
      assert forall j :: 0 <= j < |s| ==> s[j] != '=';
    }
  }

  /** A Python `dict` of strings: its keys in insertion order, and what they map to. */
  datatype Dict = Dict(keys: seq<string>, values: map<string, string>)

  ghost predicate ValidDict(d: Dict) {
    (forall i, j :: 0 <= i < j < |d.keys| ==> d.keys[i] != d.keys[j])
    && (forall k :: k in d.values <==> k in d.keys)
  }

  /** `d[k] = v`: a new key goes last, an existing one keeps its place. */
  function Put(d: Dict, k: string, v: string): (r: Dict)
    requires ValidDict(d)
    ensures ValidDict(r)
    ensures r.values == d.values[k := v]
  {
    if k in d.values then Dict(d.keys, d.values[k := v]) else Dict(d.keys + [k], d.values[k := v])
  }

  /** How many lines of `lines` take part. */
  function KeptCount(lines: seq<string>): nat {
    if lines == [] then 0 else KeptCount(lines[..|lines| - 1]) + (if Kept(lines[|lines| - 1]) then 1 else 0)
  }

  /** A line the parse cannot use: kept, but without `=`. */
  predicate Malformed(line: string) {
    Kept(line) && EntryOf(line).Single?
  }

  /** The key a line sets, if it sets one. */
  function KeyOf(line: string): Option<string> {
    if Kept(line) && EntryOf(line).Pair? then Some(EntryOf(line).key) else None
  }

  /** Some element satisfies `p`, looking from the end. */
  predicate AnyOf<T>(xs: seq<T>, p: T -> bool) {
    xs != [] && (AnyOf(xs[..|xs| - 1], p) || p(xs[|xs| - 1]))
  }

  lemma {:induction false} AnyOfIff<T>(xs: seq<T>, p: T -> bool)
    ensures AnyOf(xs, p) <==> exists i :: 0 <= i < |xs| && p(xs[i])
  {
    if xs != [] {
      var init := xs[..|xs| - 1];
      AnyOfIff(init, p);
      if exists i :: 0 <= i < |xs| && p(xs[i]) {
        var i :| 0 <= i < |xs| && p(xs[i]);
        if i < |init| {
          assert init[i] == xs[i];
        }
      }
      if AnyOf(init, p) {
        var i :| 0 <= i < |init| && p(init[i]);
        assert init[i] == xs[i];
      }
    }
  }

  /** The values `f` gives to the elements. */
  function Collected<T>(xs: seq<T>, f: T -> Option<string>): set<string> {
    if xs == [] then {}
    else
      var y := f(xs[|xs| - 1]);
      Collected(xs[..|xs| - 1], f) + if y.Some? then {y.value} else {}
  }

  lemma {:induction false} CollectedIff<T>(xs: seq<T>, f: T -> Option<string>, k: string)
    ensures k in Collected(xs, f) <==> exists j :: 0 <= j < |xs| && f(xs[j]) == Some(k)
  {
    if xs != [] {
      var init := xs[..|xs| - 1];
      CollectedIff(init, f, k);
      if exists j :: 0 <= j < |xs| && f(xs[j]) == Some(k) {
        var j :| 0 <= j < |xs| && f(xs[j]) == Some(k);
        if j < |init| {
          assert init[j] == xs[j];
        }
      }
      if k in Collected(init, f) {
        var j :| 0 <= j < |init| && f(init[j]) == Some(k);
        assert init[j] == xs[j];
      }
    }
  }

  /** `parse_env_file`: `dict` of the pairs of the kept lines, in file order. It fails exactly
      when a line is malformed, and otherwise holds the keys the kept lines set. */
  function Parse(lines: seq<string>): (r: Result<Dict, EnvError>)
    ensures r.Err? <==> AnyOf(lines, Malformed)
    ensures r.Ok? ==> ValidDict(r.value) && r.value.values.Keys == Collected(lines, KeyOf)
  {
    if lines == [] then Ok(Dict([], map[]))
    else
      var init := lines[..|lines| - 1];
      var line := lines[|lines| - 1];
      var d :- Parse(init);
      if !Kept(line) then Ok(d)
      else match EntryOf(line)
        case Single(_) => Err(NotAPair(KeptCount(init)))
        case Pair(k, v) => Ok(Put(d, k, v))
  }

  /** Parsing fails exactly when some kept line has no `=`; indented `#` lines count. */
  lemma ParseFailsIff(lines: seq<string>)
    ensures Parse(lines).Err? <==> exists i :: 0 <= i < |lines| && Malformed(lines[i])
  {
    AnyOfIff(lines, Malformed);
  }

  /** Whether some kept line at or after `from` sets `key`. */
  predicate SetLater(lines: seq<string>, from: nat, key: string) {
    exists j :: from <= j < |lines| && KeyOf(lines[j]) == Some(key)
  }

  /** The pair the last line of a file adds to the dict of the lines before it. */
  lemma ParseLast(lines: seq<string>)
    requires lines != [] && Parse(lines).Ok?
    ensures var init := lines[..|lines| - 1];
      var line := lines[|lines| - 1];
      Parse(init).Ok?
      && Parse(lines).value.values
        == if Kept(line) then Parse(init).value.values[EntryOf(line).key := EntryOf(line).value]
           else Parse(init).value.values
  {
  }

  /** A parsed file holds exactly the keys its kept lines set; blank and comment lines
      contribute nothing. */
  lemma ParseKeys(lines: seq<string>)
    requires Parse(lines).Ok?
    ensures forall k :: k in Parse(lines).value.values <==> SetLater(lines, 0, k)
  {
    forall k
      ensures k in Collected(lines, KeyOf) <==> SetLater(lines, 0, k)
    {
      CollectedIff(lines, KeyOf, k);
    }
  }

  /** A key set by a kept line holds the value of the last line that sets it. */
  lemma {:induction false} ParseLastWins(lines: seq<string>, i: nat)
    requires Parse(lines).Ok?
    requires i < |lines| && Kept(lines[i]) && EntryOf(lines[i]).Pair?
    requires !SetLater(lines, i + 1, EntryOf(lines[i]).key)
    ensures EntryOf(lines[i]).key in Parse(lines).value.values
    ensures Parse(lines).value.values[EntryOf(lines[i]).key] == EntryOf(lines[i]).value
  {
    var init := lines[..|lines| - 1];
    var line := lines[|lines| - 1];
    var k := EntryOf(lines[i]).key;
    ParseLast(lines);
    if i < |init| {
      assert init[i] == lines[i];
      assert !SetLater(init, i + 1, k);
      ParseLastWins(init, i);
    }
  }

  /** `[key for key in template_vars if key not in env_vars]`. */
  function Missing(templateKeys: seq<string>, env: Dict): (r: seq<string>)
    ensures forall k :: k in r <==> k in templateKeys && k !in env.values
    ensures |r| <= |templateKeys|
  {
    if templateKeys == [] then []
    else
      var init := Missing(templateKeys[..|templateKeys| - 1], env);
      var k := templateKeys[|templateKeys| - 1];
      assert forall x :: x in templateKeys <==> x in templateKeys[..|templateKeys| - 1] || x == k;
      if k in env.values then init else init + [k]
  }

  /** The missing keys keep the template's order: they are the template's keys, in order,
      with the present ones dropped. */
  lemma {:induction false} MissingInOrder(templateKeys: seq<string>, env: Dict, i: nat, j: nat)
    requires i < j < |Missing(templateKeys, env)|
    ensures exists a, b ::
      (0 <= a < b < |templateKeys|
       && templateKeys[a] == Missing(templateKeys, env)[i] && templateKeys[b] == Missing(templateKeys, env)[j])
    decreases |templateKeys|
  {
    var init := templateKeys[..|templateKeys| - 1];
    var m := Missing(init, env);
    var k := templateKeys[|templateKeys| - 1];
    var r := Missing(templateKeys, env);
    if j < |m| {
      MissingInOrder(init, env, i, j);
      var a, b :| 0 <= a < b < |init| && init[a] == m[i] && init[b] == m[j];
      assert templateKeys[a] == r[i] && templateKeys[b] == r[j];
    } else {
      assert r[i] == m[i] && r[j] == k;
      assert m[i] in init;
      var a :| 0 <= a < |init| && init[a] == m[i];
      assert templateKeys[a] == r[i] && templateKeys[|templateKeys| - 1] == r[j];
    }
  }

  /** `', '.join(keys)`. */
  function JoinComma(keys: seq<string>): string {
    if keys == [] then []
    else if |keys| == 1 then keys[0]
    else keys[0] + ", " + JoinComma(keys[1..])
  }

  const MissingPrefix := "The following keys are missing in the environment file: "

  /** `check_env_matches_template`: the template is parsed, then the environment file; then
      the template keys the environment lacks are reported, if there are any. */
  function MatchesTemplate(templateLines: seq<string>, envLines: seq<string>): Outcome<EnvError> {
    var template := Parse(templateLines);
    if template.Err? then Fail(template.error)
    else
      var env := Parse(envLines);
      if env.Err? then Fail(env.error)
      else
        var missing := Missing(template.value.keys, env.value);
        if missing != [] then Fail(MissingKeys(MissingPrefix + JoinComma(missing))) else Pass
  }

  /** The check passes exactly when both files parse and every key the template sets is set
      in the environment file; a malformed template is reported before the environment. */
  lemma MatchesTemplateCases(templateLines: seq<string>, envLines: seq<string>)
    ensures MatchesTemplate(templateLines, envLines) == Pass <==>
      (Parse(templateLines).Ok? && Parse(envLines).Ok?
       && forall k :: SetLater(templateLines, 0, k) ==> SetLater(envLines, 0, k))
    ensures Parse(templateLines).Err? ==> MatchesTemplate(templateLines, envLines) == Fail(Parse(templateLines).error)
  {
    if Parse(templateLines).Ok? && Parse(envLines).Ok? {
      var t := Parse(templateLines).value;
      var e := Parse(envLines).value;
      ParseKeys(templateLines);
      ParseKeys(envLines);
      var missing := Missing(t.keys, e);
      if missing != [] {
        var k := missing[0];
        assert k in t.values && k !in e.values;
        assert SetLater(templateLines, 0, k) && !SetLater(envLines, 0, k);
      } else {
        forall k | SetLater(templateLines, 0, k)
          ensures SetLater(envLines, 0, k)
        {
          assert k in t.keys;
          assert k !in missing;
        }
      }
    }
  }

  /** `check_env`: the environment file must exist before it is compared with the template. */
  function CheckEnv(envPath: string, envExists: bool, templateLines: seq<string>, envLines: seq<string>): (r: Outcome<EnvError>)
    ensures !envExists ==> r == Fail(FileNotFound("Environment file '" + envPath + "' does not exist."))
    ensures envExists ==> r == MatchesTemplate(templateLines, envLines)
  {
    if !envExists then Fail(FileNotFound("Environment file '" + envPath + "' does not exist."))
    else MatchesTemplate(templateLines, envLines)
  }
}
