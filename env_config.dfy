/**
 * `_replace_env_vars`, shared by the client and the server config loaders: it
 * walks a parsed JSON object and replaces every string value of the form
 * `${NAME}` with the environment's value for `NAME`, descending into nested
 * objects (not into lists). A missing variable raises `ValueError` and stops
 * the walk, leaving the replacements already made in place. The object it
 * walks is the dict `json.load` built from the file, which holds each key once.
 */
module EnvConfig {
  import opened Wrappers

  /** A parsed JSON value; an object keeps its members in file order. */
  datatype Json =
    | JNull
    | JBool(b: bool)
    | JNumber(n: real)
    | JString(s: string)
    | JList(items: seq<Json>)
    | JObject(members: seq<Member>)

  datatype Member = Member(key: string, value: Json)

  /** The keys of `ms`. */
  function KeySet(ms: seq<Member>): set<string> {
    set m | m in ms :: m.key
  }

  /** No key appears twice, as in a Python dict. */
  predicate DistinctKeys(ms: seq<Member>) {
    forall i, j :: 0 <= i < j < |ms| ==> ms[i].key != ms[j].key
  }

  /** `ms[i]` is the last member of `ms` with its key. */
  predicate LastOfKey(ms: seq<Member>, i: int) {
    0 <= i < |ms| && forall j :: i < j < |ms| ==> ms[j].key != ms[i].key
  }

  lemma KeySetSnoc(ms: seq<Member>, x: Member)
    ensures KeySet(ms + [x]) == KeySet(ms) + {x.key}
  {
    assert forall m :: m in ms + [x] <==> m in ms || m == x;
  }

  /** A member last of its key in all but the final member stays last when the final one has another key. */
  lemma LastOfKeyExtends(ms: seq<Member>, i: int)
    requires ms != [] && LastOfKey(ms[..|ms| - 1], i) && ms[|ms| - 1].key != ms[..|ms| - 1][i].key
    ensures LastOfKey(ms, i) && ms[i] == ms[..|ms| - 1][i]
  {
    var front := ms[..|ms| - 1];
    assert forall j :: i < j < |front| ==> ms[j] == front[j];
  }

  /** `d[key] = value`: an existing key keeps its place and takes the value; a new key goes last. */
  function Assign(d: seq<Member>, key: string, value: Json): seq<Member> {
    if d == [] then [Member(key, value)]
    else if d[0].key == key then [Member(key, value)] + d[1..]
    else [d[0]] + Assign(d[1..], key, value)
  }

  lemma KeySetCons(x: Member, ms: seq<Member>)
    ensures KeySet([x] + ms) == {x.key} + KeySet(ms)
  {
    assert forall m :: m in [x] + ms <==> m == x || m in ms;
  }

  /** Assigning adds the key to the dict's keys. */
  lemma {:induction false} AssignKeys(d: seq<Member>, key: string, value: Json)
    ensures KeySet(Assign(d, key, value)) == KeySet(d) + {key}
  {
    if d != [] {
      assert d == [d[0]] + d[1..];
      KeySetCons(d[0], d[1..]);
      if d[0].key == key {
        KeySetCons(Member(key, value), d[1..]);
      } else {
        AssignKeys(d[1..], key, value);
        KeySetCons(d[0], Assign(d[1..], key, value));
      }
    }
  }

  /** A member in front of a dict keeps the keys distinct exactly when its key is new. */
  lemma DistinctCons(x: Member, ms: seq<Member>)
    ensures DistinctKeys([x] + ms) <==> x.key !in KeySet(ms) && DistinctKeys(ms)
  {
    var r := [x] + ms;
    assert forall i :: 0 <= i < |ms| ==> r[i + 1] == ms[i];
    if DistinctKeys(r) {
      forall m | m in ms ensures m.key != x.key {
        var i :| 0 <= i < |ms| && ms[i] == m;
        assert r[0].key != r[i + 1].key;
      }
      forall i, j | 0 <= i < j < |ms| ensures ms[i].key != ms[j].key {
        assert r[i + 1].key != r[j + 1].key;
      }
    }
    if x.key !in KeySet(ms) && DistinctKeys(ms) {
      forall i, j | 0 <= i < j < |r| ensures r[i].key != r[j].key {
        if i == 0 {
          assert r[j] == ms[j - 1];
        } else {
          assert r[i] == ms[i - 1] && r[j] == ms[j - 1];
        }
      }
    }
  }

  /**
   * Assigning into a dict keeps each key once: the assigned key holds the new
   * value and every other member is one the dict held.
   */
  lemma {:induction false} AssignIntoDict(d: seq<Member>, key: string, value: Json)
    requires DistinctKeys(d)
    ensures DistinctKeys(Assign(d, key, value))
    ensures forall m :: m in Assign(d, key, value) ==> if m.key == key then m.value == value else m in d
  {
    if d != [] {
      var tail := d[1..];
      assert d == [d[0]] + tail;
      DistinctCons(d[0], tail);
      if d[0].key == key {
        DistinctCons(Member(key, value), tail);
      } else {
        AssignIntoDict(tail, key, value);
        AssignKeys(tail, key, value);
        DistinctCons(d[0], Assign(tail, key, value));
      }
    }
  }

  /**
   * The dict `json.load` builds from an object's members in file order, by
   * assigning each in turn.
   */
  function BuildDict(ms: seq<Member>): seq<Member> {
    if ms == [] then [] else Assign(BuildDict(ms[..|ms| - 1]), ms[|ms| - 1].key, ms[|ms| - 1].value)
  }

  /**
   * The dict holds each key of the file's object once, and under it the
   * member the file gives last for that key: an earlier duplicate is lost.
   */
  lemma {:induction false} BuildDictKeepsLast(ms: seq<Member>)
    ensures DistinctKeys(BuildDict(ms))
    ensures KeySet(BuildDict(ms)) == KeySet(ms)
    ensures forall m :: m in BuildDict(ms) ==> exists j :: LastOfKey(ms, j) && ms[j] == m
  {
    if ms != [] {
      var front, last := ms[..|ms| - 1], ms[|ms| - 1];
      var d := BuildDict(front);
      BuildDictKeepsLast(front);
      AssignKeys(d, last.key, last.value);
      AssignIntoDict(d, last.key, last.value);
      assert ms == front + [last];
      KeySetSnoc(front, last);
      forall m | m in BuildDict(ms) ensures exists j :: LastOfKey(ms, j) && ms[j] == m {
        if m.key == last.key {
          assert LastOfKey(ms, |front|) && ms[|front|] == m;
        } else {
          var j :| LastOfKey(front, j) && front[j] == m;
          LastOfKeyExtends(ms, j);
        }
      }
    }
  }

  /** `json.load`'s result: every object, at any depth and inside lists too, is a dict. */
  predicate Loaded(v: Json)
    decreases v
  {
    match v
    case JObject(ms) => DistinctKeys(ms) && forall i :: 0 <= i < |ms| ==> Loaded(ms[i].value)
    case JList(items) => forall i :: 0 <= i < |items| ==> Loaded(items[i])
    case _ => true
  }

  /** What `json.load` returns for a value as the file writes it. */
  function Load(v: Json): Json
    decreases v
  {
    match v
    case JObject(ms) =>
      JObject(BuildDict(seq(|ms|, i requires 0 <= i < |ms| => Member(ms[i].key, Load(ms[i].value)))))
    case JList(items) => JList(seq(|items|, i requires 0 <= i < |items| => Load(items[i])))
    case _ => v
  }

  /** `json.load(f)` on a file holding the object `file`. */
  function LoadObject(file: seq<Member>): seq<Member> {
    Load(JObject(file)).members
  }

  /** Every object `json.load` returns, nested ones included, holds each key once. */
  lemma {:induction false} LoadGivesDicts(v: Json)
    ensures Loaded(Load(v))
    decreases v
  {
    match v
    case JObject(ms) =>
      var loaded := seq(|ms|, i requires 0 <= i < |ms| => Member(ms[i].key, Load(ms[i].value)));
      var d := BuildDict(loaded);
      BuildDictKeepsLast(loaded);
      forall i | 0 <= i < |d| ensures Loaded(d[i].value) {
        assert d[i] in d;
        var j :| LastOfKey(loaded, j) && loaded[j] == d[i];
        LoadGivesDicts(ms[j].value);
      }
    case JList(items) =>
      forall i | 0 <= i < |items| ensures Loaded(Load(items[i])) {
        LoadGivesDicts(items[i]);
      }
    case _ =>
  }

  /**
   * The loaded object has the file's keys, each once, and under each the
   * loaded form of the value the file gives last for it.
   */
  lemma LoadObjectKeepsLast(file: seq<Member>)
    ensures DistinctKeys(LoadObject(file))
    ensures KeySet(LoadObject(file)) == KeySet(file)
    ensures forall m :: m in LoadObject(file) ==>
      exists j :: LastOfKey(file, j) && m == Member(file[j].key, Load(file[j].value))
  {
    var loaded := seq(|file|, i requires 0 <= i < |file| => Member(file[i].key, Load(file[i].value)));
    BuildDictKeepsLast(loaded);
    assert LoadObject(file) == BuildDict(loaded);
    assert forall l :: 0 <= l < |file| ==> loaded[l].key == file[l].key;
    assert KeySet(loaded) == KeySet(file) by {
      forall k ensures k in KeySet(loaded) <==> k in KeySet(file) {
        if k in KeySet(loaded) {
          var m :| m in loaded && m.key == k;
          var i :| 0 <= i < |loaded| && loaded[i] == m;
          assert file[i] in file;
        }
        if k in KeySet(file) {
          var m :| m in file && m.key == k;
          var i :| 0 <= i < |file| && file[i] == m;
          assert loaded[i] in loaded;
        }
      }
    }
    forall m | m in LoadObject(file) ensures exists j :: LastOfKey(file, j) && m == Member(file[j].key, Load(file[j].value)) {
      var j :| LastOfKey(loaded, j) && loaded[j] == m;
      assert LastOfKey(file, j);
    }
  }

  /**
   * `{"a": "${U}", "a": "x"}` with `U` unset: the dict keeps only `"a": "x"`,
   * so the substitution succeeds and changes nothing.
   */
  lemma OverwrittenPlaceholderIsNotLookedUp()
    ensures var file := [Member("a", JString("${U}")), Member("a", JString("x"))];
      Replace(LoadObject(file), map[]) == ([Member("a", JString("x"))], None)
  {
    var file := [Member("a", JString("${U}")), Member("a", JString("x"))];
    var loaded := seq(|file|, i requires 0 <= i < |file| => Member(file[i].key, Load(file[i].value)));
    assert loaded == file;
    assert loaded[..1][..0] == [] && loaded[..1] == [file[0]];
    assert BuildDict(loaded[..1]) == [file[0]];
    assert LoadObject(file) == [Member("a", JString("x"))];
    var d := [Member("a", JString("x"))];
    assert !IsPlaceholder("x");
    assert ReplaceValue(JString("x"), map[]) == (JString("x"), None);
    assert [] + [Member("a", JString("x"))] == d;
    assert Walk(d, [], map[]) == Walk(d, d, map[]);
  }

  /** `value.startswith("${") and value.endswith("}")` */
  predicate IsPlaceholder(s: string) {
    |s| >= 3 && s[..2] == "${" && s[|s| - 1] == '}'
  }

  /** `value[2:-1]` */
  function VarName(s: string): string
    requires IsPlaceholder(s)
  {
    s[2..|s| - 1]
  }

  /** `a` and `b` have the same keys in the same order. */
  predicate SameKeys(a: seq<Member>, b: seq<Member>) {
    |a| == |b| && forall i :: 0 <= i < |a| ==> a[i].key == b[i].key
  }

  /**
   * The members as `_replace_env_vars` leaves them, and the name of the
   * missing variable that stopped it, if any.
   */
  function Replace(ms: seq<Member>, env: map<string, string>): (r: (seq<Member>, Option<string>))
    ensures r.1.Some? ==> r.1.value !in env
    decreases ms, 1
  {
    Walk(ms, [], env)
  }

  /**
   * The walk from member `|done|` on, where `done` holds the members already
   * handled: each value is replaced and assigned back under its key; a
   * missing variable stops the walk and leaves the later members untouched.
   */
  function Walk(ms: seq<Member>, done: seq<Member>, env: map<string, string>): (r: (seq<Member>, Option<string>))
    requires |done| <= |ms|
    ensures r.1.Some? ==> r.1.value !in env
    decreases ms, 0, |ms| - |done|
  {
    if |done| == |ms| then (done, None)
    else
      var i := |done|;
      var (v, missing) := ReplaceValue(ms[i].value, env);
      var done' := done + [Member(ms[i].key, v)];
      if missing.Some? then (done' + ms[i + 1..], missing)
      else Walk(ms, done', env)
  }

  /** One value: an object is walked, a placeholder string is looked up, anything else is kept. */
  function ReplaceValue(v: Json, env: map<string, string>): (r: (Json, Option<string>))
    ensures v.JObject? <==> r.0.JObject?
    ensures !v.JObject? && !(v.JString? && IsPlaceholder(v.s)) ==> r == (v, None)
    ensures r.1.Some? ==> r.1.value !in env
    decreases v, 2
  {
    match v
    case JObject(ms) =>
      var (ms', missing) := Replace(ms, env);
      (JObject(ms'), missing)
    case JString(s) =>
      if IsPlaceholder(s) then
        if VarName(s) in env then (JString(env[VarName(s)]), None) else (v, Some(VarName(s)))
      else (v, None)
    case _ => (v, None)
  }

  /** The walk over an object's members, assigning each replaced value back under its key. */
  method ReplaceEnvVars(members: seq<Member>, env: map<string, string>)
    returns (updated: seq<Member>, missing: Option<string>)
    ensures (updated, missing) == Replace(members, env)
    decreases members, 1
  {
    updated := members;
    ghost var done: seq<Member> := [];
    var i := 0;
    while i < |members|
      invariant 0 <= i <= |members| && |done| == i
      invariant updated == done + members[i..]
      invariant Walk(members, done, env) == Replace(members, env)
    {
      var v, failed := ReplaceEnvValue(members[i].value, env);
      WalkStep(members, done, env, v, failed);
      updated := updated[i := Member(members[i].key, v)];
      done := done + [Member(members[i].key, v)];
      SplitAfter(updated, done, members, i);
      if failed.Some? {
        return updated, failed;
      }
      i := i + 1;
    }
    assert updated == done;
    missing := None;
  }

  /** One step of the walk, as the loop takes it. */
  lemma WalkStep(ms: seq<Member>, done: seq<Member>, env: map<string, string>, v: Json, failed: Option<string>)
    requires |done| < |ms| && (v, failed) == ReplaceValue(ms[|done|].value, env)
    ensures failed.Some? ==> Walk(ms, done, env) == (done + [Member(ms[|done|].key, v)] + ms[|done| + 1..], failed)
    ensures failed.None? ==> Walk(ms, done, env) == Walk(ms, done + [Member(ms[|done|].key, v)], env)
  {
  }

  /** After position `i` is assigned, the members are the handled ones followed by the rest. */
  lemma SplitAfter(updated: seq<Member>, done: seq<Member>, ms: seq<Member>, i: int)
    requires 0 <= i < |ms| && |done| == i + 1 && |updated| == |ms|
    requires updated[..i] == done[..i] && updated[i] == done[i] && updated[i + 1..] == ms[i + 1..]
    ensures updated == done + ms[i + 1..]
  {
  }

  /** The body of the walk for one value. */
  method ReplaceEnvValue(value: Json, env: map<string, string>) returns (v: Json, failed: Option<string>)
    ensures (v, failed) == ReplaceValue(value, env)
    decreases value, 3
  {
    v, failed := value, None;
    match value {
      case JObject(ms) =>
        var ms', m := ReplaceEnvVars(ms, env);
        v, failed := JObject(ms'), m;
      case JString(s) =>
        if IsPlaceholder(s) {
          var name := s[2..|s| - 1];
          if name in env {
            v := JString(env[name]);
          } else {
            failed := Some(name);
          }
        }
      case _ =>
    }
  }

  /** Every placeholder in `v`, at any depth of nested objects, names a variable of `env`. */
  predicate Bound(v: Json, env: map<string, string>)
    decreases v
  {
    match v
    case JObject(ms) => forall i :: 0 <= i < |ms| ==> Bound(ms[i].value, env)
    case JString(s) => IsPlaceholder(s) ==> VarName(s) in env
    case _ => true
  }

  /**
   * `repl` is `orig` with its placeholders replaced: a bound placeholder by the
   * variable's value, a nested object member by member under the same keys,
   * and every other value (lists included) kept as it is.
   */
  predicate Resolved(orig: Json, repl: Json, env: map<string, string>)
    decreases orig
  {
    match orig
    case JObject(ms) =>
      && repl.JObject? && |repl.members| == |ms|
      && forall i :: 0 <= i < |ms| ==> repl.members[i].key == ms[i].key && Resolved(ms[i].value, repl.members[i].value, env)
    case JString(s) =>
      if IsPlaceholder(s) && VarName(s) in env then repl == JString(env[VarName(s)]) else repl == orig
    case _ => repl == orig
  }

  /** The first `|done|` members of `ms`, resolved, under the same keys. */
  predicate ResolvedPrefix(ms: seq<Member>, done: seq<Member>, env: map<string, string>) {
    |done| <= |ms| && forall j :: 0 <= j < |done| ==> done[j].key == ms[j].key && Resolved(ms[j].value, done[j].value, env)
  }

  /** The walk stopped at member `i`: the earlier ones are resolved, the later ones untouched. */
  predicate StoppedAt(ms: seq<Member>, r: seq<Member>, i: int, env: map<string, string>) {
    && 0 <= i < |ms| == |r|
    && ResolvedPrefix(ms, r[..i], env)
    && r[i].key == ms[i].key && !Bound(ms[i].value, env)
    && r[i + 1..] == ms[i + 1..]
  }

  /** The keys, and their order, are never changed. */
  lemma ReplaceKeepsKeys(ms: seq<Member>, env: map<string, string>)
    ensures SameKeys(Replace(ms, env).0, ms)
  {
    WalkKeepsKeys(ms, [], env);
  }

  lemma {:induction false} WalkKeepsKeys(ms: seq<Member>, done: seq<Member>, env: map<string, string>)
    requires |done| <= |ms| && forall j :: 0 <= j < |done| ==> done[j].key == ms[j].key
    ensures SameKeys(Walk(ms, done, env).0, ms)
    decreases |ms| - |done|
  {
    if |done| < |ms| {
      var i := |done|;
      var (v, missing) := ReplaceValue(ms[i].value, env);
      var done' := done + [Member(ms[i].key, v)];
      if missing.None? {
        WalkKeepsKeys(ms, done', env);
      }
    }
  }

  /**
   * The walk succeeds exactly when every placeholder, nested or not, is
   * bound, and then every placeholder is replaced by its variable's value.
   */
  lemma {:induction false} ReplaceSucceedsIffBound(ms: seq<Member>, env: map<string, string>)
    ensures Replace(ms, env).1.None? <==> forall i :: 0 <= i < |ms| ==> Bound(ms[i].value, env)
    ensures Replace(ms, env).1.None? ==> |Replace(ms, env).0| == |ms| && ResolvedPrefix(ms, Replace(ms, env).0, env)
    decreases ms, 1
  {
    WalkResolves(ms, [], env);
  }

  lemma {:induction false} WalkResolves(ms: seq<Member>, done: seq<Member>, env: map<string, string>)
    requires ResolvedPrefix(ms, done, env)
    ensures Walk(ms, done, env).1.None? <==> forall j :: |done| <= j < |ms| ==> Bound(ms[j].value, env)
    ensures Walk(ms, done, env).1.None? ==> |Walk(ms, done, env).0| == |ms| && ResolvedPrefix(ms, Walk(ms, done, env).0, env)
    decreases ms, 0, |ms| - |done|
  {
    if |done| < |ms| {
      var i := |done|;
      var (v, missing) := ReplaceValue(ms[i].value, env);
      ValueResolves(ms[i].value, env);
      if missing.None? {
        WalkResolves(ms, done + [Member(ms[i].key, v)], env);
      }
    }
  }

  lemma {:induction false} ValueResolves(v: Json, env: map<string, string>)
    ensures ReplaceValue(v, env).1.None? <==> Bound(v, env)
    ensures Bound(v, env) ==> Resolved(v, ReplaceValue(v, env).0, env)
    decreases v, 2
  {
    match v
    case JObject(ms) =>
      ReplaceSucceedsIffBound(ms, env);
    case _ =>
  }

  /**
   * A missing variable stops the walk at some member: the replacements made
   * before it stay applied and the members after it are left as they were.
   */
  lemma {:induction false} FailureIsNotAtomic(ms: seq<Member>, env: map<string, string>)
    requires Replace(ms, env).1.Some?
    ensures exists i :: StoppedAt(ms, Replace(ms, env).0, i, env)
  {
    WalkStops(ms, [], env);
  }

  lemma {:induction false} WalkStops(ms: seq<Member>, done: seq<Member>, env: map<string, string>)
    requires ResolvedPrefix(ms, done, env) && Walk(ms, done, env).1.Some?
    ensures exists i :: |done| <= i && StoppedAt(ms, Walk(ms, done, env).0, i, env)
    decreases |ms| - |done|
  {
    var i := |done|;
    var (v, missing) := ReplaceValue(ms[i].value, env);
    ValueResolves(ms[i].value, env);
    var done' := done + [Member(ms[i].key, v)];
    if missing.Some? {
      var r := done' + ms[i + 1..];
      assert r[..i] == done && r[i + 1..] == ms[i + 1..];
      assert StoppedAt(ms, r, i, env);
    } else {
      WalkStops(ms, done', env);
    }
  }
}
