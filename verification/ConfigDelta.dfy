// Configuration changes: which section handlers run when one database replaces another.
module ConfigDelta {
  import opened Basics

  // Names are keys that have been folded to one case; the unnamed section has no name.
  type Key = string
  type Name = Option<Key>
  type Value = string
  type Entries = map<Key, Value>
  // section type, section name, entries
  type Database = map<Key, map<Name, Entries>>

  datatype Mode = Unnamed | Named | NamedMandatory | NamedWithDefault

  // The default values of the schema, by section type and entry.
  type Defaults = map<(Key, Key), Value>

  function FindSection(db: Database, kind: Key, name: Name): Option<Entries> {
    if kind in db && name in db[kind] then Some(db[kind][name]) else None
  }

  function FindEntry(db: Database, kind: Key, name: Name, entry: Key): Option<Value> {
    match FindSection(db, kind, name)
    case None => None
    case Some(entries) => if entry in entries then Some(entries[entry]) else None
  }

  // cfg_db_get_entry_value: the named section, then the unnamed one, then the schema
  function Effective(db: Database, defaults: Defaults, kind: Key, name: Name, entry: Key): Option<Value> {
    var own := FindEntry(db, kind, name, entry);
    if own.Some? then own
    else
      var unnamed := if name.Some? then FindEntry(db, kind, None, entry) else None;
      if unnamed.Some? then unnamed
      else if (kind, entry) in defaults then Some(defaults[(kind, entry)])
      else None
  }

  // A value in the named section hides everything else.
  lemma OwnValue(db: Database, defaults: Defaults, kind: Key, name: Name, entry: Key)
    requires kind in db && name in db[kind] && entry in db[kind][name]
    ensures Effective(db, defaults, kind, name, entry) == Some(db[kind][name][entry])
    ensures forall db': Database, defaults': Defaults ::
      && kind in db' && name in db'[kind] && entry in db'[kind][name]
      && db'[kind][name][entry] == db[kind][name][entry] ==>
        Effective(db', defaults', kind, name, entry) == Effective(db, defaults, kind, name, entry)
  {
  }

  // The section has no such value.
  predicate Lacks(db: Database, kind: Key, name: Name, entry: Key) {
    kind in db && name in db[kind] ==> entry !in db[kind][name]
  }

  // Without it, a value in the unnamed section hides the schema.
  lemma UnnamedValue(db: Database, defaults: Defaults, kind: Key, name: Name, entry: Key)
    requires Lacks(db, kind, name, entry) && kind in db && None in db[kind] && entry in db[kind][None]
    ensures Effective(db, defaults, kind, name, entry) == Some(db[kind][None][entry])
    ensures forall defaults': Defaults ::
      Effective(db, defaults', kind, name, entry) == Effective(db, defaults, kind, name, entry)
  {
  }

  // Without both, it is the value of the schema, if there is one, whatever else is in the database.
  lemma SchemaValue(db: Database, defaults: Defaults, kind: Key, name: Name, entry: Key)
    requires Lacks(db, kind, name, entry) && Lacks(db, kind, None, entry)
    ensures (kind, entry) in defaults ==> Effective(db, defaults, kind, name, entry) == Some(defaults[(kind, entry)])
    ensures (kind, entry) !in defaults ==> Effective(db, defaults, kind, name, entry) == None
  {
  }

  // What a handler sees when it is called.
  datatype Report = Report(name: Name, pre: Option<Entries>, post: Option<Entries>, changed: seq<bool>)

  // The names of the instances of a type.
  function Names(db: Database, kind: Key): set<Name> {
    if kind in db then db[kind].Keys else {}
  }

  // _section_needs_default_named_one
  function NeedsDefault(db: Database, kind: Key): bool {
    Names(db, kind) <= {None}
  }

  predicate IsNamed(mode: Mode) {
    mode != Unnamed
  }

  class Handler {
    const kind: Key
    const mode: Mode
    const entries: seq<Key>
    const defName: Key
    // the fields that are set for a call
    var pre: Option<Entries>
    var post: Option<Entries>
    var changed: seq<bool>
    var sectionName: Name
    // the calls of the handler
    var calls: seq<Report>

    constructor (kind: Key, mode: Mode, entries: seq<Key>, defName: Key)
      ensures this.kind == kind && this.mode == mode && this.entries == entries
      ensures this.defName == defName && calls == []
    {
      this.kind, this.mode, this.entries, this.defName := kind, mode, entries, defName;
      pre, post, changed, sectionName, calls := None, None, [], None, [];
    }

    // The effective value of some entry differs.
    predicate ValueDiffers(a: Database, b: Database, defaults: Defaults, name: Name) {
      exists i :: 0 <= i < |entries| && DiffersAt(a, b, defaults, name, i)
    }

    predicate DiffersAt(a: Database, b: Database, defaults: Defaults, name: Name, i: nat)
      requires i < |entries|
    {
      Effective(a, defaults, kind, name, entries[i]) != Effective(b, defaults, kind, name, entries[i])
    }

    // A side without named sections gets one with the default name and no entries; the old side does
    // not at startup.
    predicate GetsDefault(db: Database) {
      mode == NamedWithDefault && NeedsDefault(db, kind)
    }

    predicate HadDefault(a: Database, startup: bool) {
      !startup && GetsDefault(a)
    }

    // The section of a name, or what stands in for the default name.
    function FindOr(db: Database, name: Name, standIn: bool): Option<Entries> {
      var found := FindSection(db, kind, name);
      if found.None? && standIn && name == Some(defName) then Some(map[]) else found
    }

    function Before(a: Database, name: Name, startup: bool): Option<Entries> {
      FindOr(a, name, HadDefault(a, startup))
    }

    function After(b: Database, name: Name): Option<Entries> {
      FindOr(b, name, GetsDefault(b))
    }

    // The handler has to hear about the instance. For named types the unnamed section only delivers
    // defaults; at startup everything counts as changed.
    predicate Affected(a: Database, b: Database, defaults: Defaults, name: Name, startup: bool) {
      && (IsNamed(mode) ==> name.Some?)
      && (startup || ValueDiffers(a, b, defaults, name)
          || (IsNamed(mode) && Before(a, name, startup).Some? != After(b, name).Some?))
    }

    // The instances of both sides.
    function Visited(a: Database, b: Database, startup: bool): set<Name> {
      Names(a, kind) + Names(b, kind)
      + if startup && mode == Unnamed && kind !in a && kind !in b then {None} else {}
    }

    // ... and the one with the default name, if a side has got it.
    function Instances(a: Database, b: Database, startup: bool): set<Name> {
      Visited(a, b, startup) + if HadDefault(a, startup) || GetsDefault(b) then {Some(defName)} else {}
    }

    function Flags(a: Database, b: Database, defaults: Defaults, name: Name): (f: seq<bool>)
      ensures |f| == |entries|
    {
      seq(|entries|, i requires 0 <= i < |entries| => DiffersAt(a, b, defaults, name, i))
    }

    // What the handler is to be told about an instance.
    function TrueReport(a: Database, b: Database, defaults: Defaults, name: Name, startup: bool): Report {
      Report(name, Before(a, name, startup), After(b, name), Flags(a, b, defaults, name))
    }

    // The comparison of the effective values.
    method Compare(a: Database, b: Database, defaults: Defaults, name: Name) returns (differs: bool)
      modifies this`changed
      ensures changed == Flags(a, b, defaults, name) && (differs <==> ValueDiffers(a, b, defaults, name))
    {
      hide Effective;
      differs, changed := false, [];
      var i := 0;
      while i < |entries|
        invariant 0 <= i <= |entries| && changed == Flags(a, b, defaults, name)[..i]
        invariant differs <==> exists k :: 0 <= k < i && DiffersAt(a, b, defaults, name, k)
      {
        var x, y := Effective(a, defaults, kind, name, entries[i]), Effective(b, defaults, kind, name, entries[i]);
        assert DiffersAt(a, b, defaults, name, i) <==> x != y;
        ghost var flags := Flags(a, b, defaults, name);
        assert flags[i] == DiffersAt(a, b, defaults, name, i);
        assert flags[..i + 1] == flags[..i] + [x != y];
        changed := changed + [x != y];
        differs := differs || x != y;
        i := i + 1;
      }
    }

    // _handle_named_section_change
    method HandleNamed(a: Database, b: Database, defaults: Defaults, name: Name, startup: bool, preDefault: bool,
                       postDefault: bool)
      requires preDefault || postDefault ==> mode == NamedWithDefault
      modifies this
      ensures
        var pre, post := FindOr(a, name, preDefault && !startup), FindOr(b, name, postDefault);
        var told := startup || ValueDiffers(a, b, defaults, name) || (IsNamed(mode) && pre.Some? != post.Some?);
        calls == old(calls)
          + if (IsNamed(mode) ==> name.Some?) && told
            then [Report(name, pre, post, Flags(a, b, defaults, name))] else []
    {
      if IsNamed(mode) && name.None? {
        // the unnamed section only delivers defaults
        return;
      }
      hide Flags, ValueDiffers, FindSection;
      pre, post := FindSection(a, kind, name), FindSection(b, kind, name);
      if mode == NamedWithDefault && name == Some(defName) {
        if pre.None? && !startup && preDefault {
          pre := Some(map[]);
        }
        if post.None? && postDefault {
          post := Some(map[]);
        }
      }
      // the instance exists in one database only
      var differs := IsNamed(mode) && pre.Some? != post.Some?;
      var values := Compare(a, b, defaults, name);
      if differs || values || startup {
        sectionName := name;
        calls := calls + [Report(sectionName, pre, post, changed)];
      }
    }

    // One call for each instance that is affected, and no other ones.
    ghost predicate OncePer(news: seq<Report>, instances: set<Name>, a: Database, b: Database, defaults: Defaults,
                            startup: bool)
    {
      && (forall k :: 0 <= k < |news| ==>
           news[k].name in instances && Affected(a, b, defaults, news[k].name, startup))
      && (forall j, k :: 0 <= j < k < |news| ==> news[j].name != news[k].name)
      && forall n :: n in instances && Affected(a, b, defaults, n, startup) ==>
           exists k :: 0 <= k < |news| && news[k].name == n
    }

    // The calls tell the truth.
    ghost predicate AllTrue(news: seq<Report>, a: Database, b: Database, defaults: Defaults, startup: bool) {
      forall k :: 0 <= k < |news| ==> news[k] == TrueReport(a, b, defaults, news[k].name, startup)
    }

    ghost predicate Exact(news: seq<Report>, visited: set<Name>, a: Database, b: Database, defaults: Defaults,
                          startup: bool)
    {
      OncePer(news, visited, a, b, defaults, startup) && AllTrue(news, a, b, defaults, startup)
    }

    function TrueCalls(a: Database, b: Database, defaults: Defaults, name: Name, startup: bool): seq<Report> {
      if Affected(a, b, defaults, name, startup) then [TrueReport(a, b, defaults, name, startup)] else []
    }

    lemma OncePerMore(news: seq<Report>, visited: set<Name>, x: Report, a: Database, b: Database, defaults: Defaults,
                      startup: bool)
      requires OncePer(news, visited, a, b, defaults, startup) && x.name !in visited
      requires Affected(a, b, defaults, x.name, startup)
      ensures OncePer(news + [x], visited + {x.name}, a, b, defaults, startup)
    {
      hide Affected;
      var all := news + [x];
      assert all[|news|] == x && forall k | 0 <= k < |news| :: all[k] == news[k];
    }

    lemma OncePerSkip(news: seq<Report>, visited: set<Name>, n: Name, a: Database, b: Database, defaults: Defaults,
                      startup: bool)
      requires OncePer(news, visited, a, b, defaults, startup) && !Affected(a, b, defaults, n, startup)
      ensures OncePer(news, visited + {n}, a, b, defaults, startup)
    {
      hide Affected;
    }

    lemma AllTrueMore(news: seq<Report>, x: Report, a: Database, b: Database, defaults: Defaults, startup: bool)
      requires AllTrue(news, a, b, defaults, startup)
      ensures
        && AllTrue(news + [x], a, b, defaults, startup)
        <==> x == TrueReport(a, b, defaults, x.name, startup)
    {
      hide TrueReport;
      var all := news + [x];
      assert all[|news|] == x && forall k | 0 <= k < |news| :: all[k] == news[k];
    }

    lemma CallFacts(news: seq<Report>, visited: set<Name>, k: nat, a: Database, b: Database, defaults: Defaults,
                    startup: bool)
      requires OncePer(news, visited, a, b, defaults, startup) && k < |news|
      ensures news[k].name in visited && Affected(a, b, defaults, news[k].name, startup)
      ensures forall j | 0 <= j < k :: news[j].name != news[k].name
    {
    }

    lemma Told(news: seq<Report>, visited: set<Name>, n: Name, a: Database, b: Database, defaults: Defaults,
               startup: bool)
      requires OncePer(news, visited, a, b, defaults, startup) && n in visited
      requires Affected(a, b, defaults, n, startup)
      ensures news != []
    {
      hide Affected;
    }

    lemma NobodyNamed(news: seq<Report>, visited: set<Name>, a: Database, b: Database, defaults: Defaults,
                      startup: bool)
      requires OncePer(news, visited, a, b, defaults, startup) && IsNamed(mode) && visited <= {None}
      ensures news == []
    {
      hide OncePer;
      if news != [] {
        CallFacts(news, visited, 0, a, b, defaults, startup);
      }
    }

    lemma ExactStep(news: seq<Report>, visited: set<Name>, n: Name, a: Database, b: Database, defaults: Defaults,
                    startup: bool)
      requires Exact(news, visited, a, b, defaults, startup) && n !in visited
      ensures Exact(news + TrueCalls(a, b, defaults, n, startup), visited + {n}, a, b, defaults, startup)
    {
      hide Affected, Flags, Before, After, OncePer, AllTrue;
      if Affected(a, b, defaults, n, startup) {
        var x := TrueReport(a, b, defaults, n, startup);
        OncePerMore(news, visited, x, a, b, defaults, startup);
        AllTrueMore(news, x, a, b, defaults, startup);
      } else {
        OncePerSkip(news, visited, n, a, b, defaults, startup);
        assert news + [] == news;
      }
    }

    // A loop over the names of one database.
    method HandleNames(names: set<Name>, a: Database, b: Database, defaults: Defaults, startup: bool,
                       preDefault: bool, postDefault: bool, ghost start: seq<Report>, ghost before: set<Name>)
      requires names !! before && preDefault == HadDefault(a, startup) && postDefault == GetsDefault(b)
      requires start <= calls && Exact(calls[|start|..], before, a, b, defaults, startup)
      modifies this
      ensures start <= calls && Exact(calls[|start|..], before + names, a, b, defaults, startup)
    {
      hide Affected, Exact;
      var todo := names;
      assert before + (names - todo) == before;
      while todo != {}
        invariant todo <= names && start <= calls
        invariant Exact(calls[|start|..], before + (names - todo), a, b, defaults, startup)
        decreases todo
      {
        var name :| name in todo;
        ghost var news, visited := calls[|start|..], before + (names - todo);
        CallsTrue(a, b, defaults, name, startup);
        HandleNamed(a, b, defaults, name, startup, preDefault, postDefault);
        ExactStep(news, visited, name, a, b, defaults, startup);
        assert calls[|start|..] == news + TrueCalls(a, b, defaults, name, startup);
        todo := todo - {name};
        assert before + (names - todo) == visited + {name};
      }
      assert names - todo == names;
    }

    lemma CallsTrue(a: Database, b: Database, defaults: Defaults, name: Name, startup: bool)
      ensures
        var pre, post := Before(a, name, startup), After(b, name);
        var told := startup || ValueDiffers(a, b, defaults, name) || (IsNamed(mode) && pre.Some? != post.Some?);
        TrueCalls(a, b, defaults, name, startup)
        == if (IsNamed(mode) ==> name.Some?) && told then [Report(name, pre, post, Flags(a, b, defaults, name))] else []
    {
    }

    // The call when only one side gets the default name.
    function Extra(a: Database, b: Database, defaults: Defaults, startup: bool): seq<Report> {
      if HadDefault(a, startup) == GetsDefault(b) then []
      else
        var name := Some(defName);
        [Report(name, FindSection(a, kind, name), After(b, name), Flags(a, b, defaults, name))]
    }

    // The handler is called as it should be. Outside of default-named types it always is.
    predicate Handled(a: Database, b: Database, defaults: Defaults, startup: bool) {
      if HadDefault(a, startup) == GetsDefault(b)
      then GetsDefault(b) ==> !ValueDiffers(a, b, defaults, Some(defName))
      else Some(defName) !in Names(a, kind) + Names(b, kind)
    }

    predicate DefaultGoes(a: Database, b: Database, startup: bool) {
      HadDefault(a, startup) && !GetsDefault(b)
    }

    // The instances that stand in a database.
    method HandleInstances(a: Database, b: Database, defaults: Defaults, startup: bool, preDefault: bool,
                           postDefault: bool) returns (ghost base: seq<Report>)
      requires preDefault == HadDefault(a, startup) && postDefault == GetsDefault(b)
      modifies this
      ensures calls == old(calls) + base && Exact(base, Visited(a, b, startup), a, b, defaults, startup)
    {
      hide Exact, Affected, ValueDiffers, TrueCalls, Flags, FindOr;
      ghost var start := calls;
      assert calls[|start|..] == [];
      ExactNothing(a, b, defaults, startup);
      // instances of the new database
      HandleNames(Names(b, kind), a, b, defaults, startup, preDefault, postDefault, start, {});
      // instances of the old database only
      HandleNames(Names(a, kind) - Names(b, kind), a, b, defaults, startup, preDefault, postDefault, start,
                  {} + Names(b, kind));
      assert {} + Names(b, kind) + (Names(a, kind) - Names(b, kind)) == Names(a, kind) + Names(b, kind);
      base := calls[|start|..];
      if startup && mode == Unnamed && kind !in a && kind !in b {
        // at startup the handler hears about an unnamed section that nobody has set
        assert Names(a, kind) + Names(b, kind) == {};
        ExactStep(base, {}, None, a, b, defaults, startup);
        CallsTrue(a, b, defaults, None, startup);
        HandleNamed(a, b, defaults, None, true, preDefault, postDefault);
        base := base + TrueCalls(a, b, defaults, None, startup);
      }
      assert Visited(a, b, startup) == Names(a, kind) + Names(b, kind)
        || (Names(a, kind) + Names(b, kind) == {} && Visited(a, b, startup) == {} + {None});
    }

    // The calls since `before`: there is one for each affected instance if and only if the type is
    // handled as it should be, and they are true if and only if the default name does not go away.
    ghost predicate Answered(before: seq<Report>, a: Database, b: Database, defaults: Defaults, startup: bool)
      reads this
    {
      && before <= calls
      && var news := calls[|before|..];
         && (OncePer(news, Instances(a, b, startup), a, b, defaults, startup) <==> Handled(a, b, defaults, startup))
         && (AllTrue(news, a, b, defaults, startup) <==> !DefaultGoes(a, b, startup))
    }

    // The part of _handle_db_changes for one section type.
    method HandleSection(a: Database, b: Database, defaults: Defaults, startup: bool) returns (ghost base: seq<Report>)
      modifies this
      ensures calls == old(calls) + base + Extra(a, b, defaults, startup)
      ensures Exact(base, Visited(a, b, startup), a, b, defaults, startup)
      ensures Answered(old(calls), a, b, defaults, startup)
    {
      hide Exact, OncePer, AllTrue, ValueDiffers, Flags, Instances, Visited, Handled, DefaultGoes;
      // empty sections with the default name
      var preDefault := mode == NamedWithDefault && !startup && NeedsDefault(a, kind);
      var postDefault := mode == NamedWithDefault && NeedsDefault(b, kind);
      ghost var start := calls;
      base := HandleInstances(a, b, defaults, startup, preDefault, postDefault);
      if preDefault != postDefault {
        // the default name has come or gone
        HandleNamed(a, b, defaults, Some(defName), true, preDefault, postDefault);
      }
      HandledWhen(base, a, b, defaults, startup);
      assert calls[|start|..] == base + Extra(a, b, defaults, startup);
    }

    lemma ExactNothing(a: Database, b: Database, defaults: Defaults, startup: bool)
      ensures Exact([], {}, a, b, defaults, startup)
    {
    }

    lemma HandledWhen(base: seq<Report>, a: Database, b: Database, defaults: Defaults, startup: bool)
      requires Exact(base, Visited(a, b, startup), a, b, defaults, startup)
      ensures
        var news := base + Extra(a, b, defaults, startup);
        && (OncePer(news, Instances(a, b, startup), a, b, defaults, startup) <==> Handled(a, b, defaults, startup))
        && (AllTrue(news, a, b, defaults, startup) <==> !DefaultGoes(a, b, startup))
    {
      if HadDefault(a, startup) == GetsDefault(b) {
        assert base + Extra(a, b, defaults, startup) == base;
        OnBothSides(base, a, b, defaults, startup);
      } else {
        OnOneSide(base, a, b, defaults, startup);
      }
    }

    // With a default name on both sides nothing is called.
    lemma OnBothSides(base: seq<Report>, a: Database, b: Database, defaults: Defaults, startup: bool)
      requires Exact(base, Visited(a, b, startup), a, b, defaults, startup) && HadDefault(a, startup) == GetsDefault(b)
      ensures OncePer(base, Instances(a, b, startup), a, b, defaults, startup) <==> Handled(a, b, defaults, startup)
      ensures AllTrue(base, a, b, defaults, startup)
    {
      hide ValueDiffers, Flags;
      if GetsDefault(b) {
        NobodyNamed(base, Visited(a, b, startup), a, b, defaults, startup);
        assert Before(a, Some(defName), startup).Some? && After(b, Some(defName)).Some?;
      } else {
        assert Instances(a, b, startup) == Visited(a, b, startup);
      }
    }

    // With a default name on one side there is one more call for it.
    lemma OnOneSide(base: seq<Report>, a: Database, b: Database, defaults: Defaults, startup: bool)
      requires Exact(base, Visited(a, b, startup), a, b, defaults, startup) && HadDefault(a, startup) != GetsDefault(b)
      ensures
        var news := base + Extra(a, b, defaults, startup);
        && (OncePer(news, Instances(a, b, startup), a, b, defaults, startup) <==> Handled(a, b, defaults, startup))
        && (AllTrue(news, a, b, defaults, startup) <==> !DefaultGoes(a, b, startup))
    {
      hide ValueDiffers, Flags, OncePer, AllTrue, Affected, TrueReport, Instances, Visited, Before, After;
      var name, x := Some(defName), Extra(a, b, defaults, startup)[0];
      assert Extra(a, b, defaults, startup) == [x] && x.name == name;
      OneSideNames(a, b, defaults, startup);
      AllTrueMore(base, x, a, b, defaults, startup);
      if name in Visited(a, b, startup) {
        CalledAgain(base, x, a, b, defaults, startup);
      } else {
        OncePerMore(base, Visited(a, b, startup), x, a, b, defaults, startup);
      }
    }

    lemma OneSideNames(a: Database, b: Database, defaults: Defaults, startup: bool)
      requires HadDefault(a, startup) != GetsDefault(b)
      ensures Instances(a, b, startup) == Visited(a, b, startup) + {Some(defName)}
      ensures Handled(a, b, defaults, startup) <==> Some(defName) !in Visited(a, b, startup)
      ensures Some(defName) !in Visited(a, b, startup) ==> Affected(a, b, defaults, Some(defName), startup)
      ensures
        && (Extra(a, b, defaults, startup)[0] == TrueReport(a, b, defaults, Some(defName), startup))
        <==> !DefaultGoes(a, b, startup)
    {
      hide ValueDiffers, Flags;
    }

    // The instance has been called if it is affected, and must not be called if it is not.
    lemma CalledAgain(base: seq<Report>, x: Report, a: Database, b: Database, defaults: Defaults, startup: bool)
      requires OncePer(base, Visited(a, b, startup), a, b, defaults, startup) && x.name in Visited(a, b, startup)
      ensures !OncePer(base + [x], Instances(a, b, startup), a, b, defaults, startup)
    {
      hide Affected, Visited, Instances;
      var news, n := base + [x], |base|;
      assert news[n].name == x.name && forall k | 0 <= k < n :: news[k] == base[k];
      if Affected(a, b, defaults, x.name, startup) {
        var k :| 0 <= k < n && base[k].name == x.name;
        assert news[k].name == news[n].name;
      }
    }
  }

  // A change that a section with a default name does not hear of: the value of the unnamed section.
  const BEFORE: Database := map["kind" := map[None := map["entry" := "1"]]]
  const AFTER: Database := map["kind" := map[None := map["entry" := "2"]]]

  method MissedChange(h: Handler)
    requires h.mode == NamedWithDefault && h.kind == "kind" && h.entries == ["entry"]
    modifies h
    ensures h.ValueDiffers(BEFORE, AFTER, map[], Some(h.defName)) && h.calls == old(h.calls)
  {
    ghost var base := h.HandleSection(BEFORE, AFTER, map[], false);
    assert Effective(BEFORE, map[], "kind", Some(h.defName), "entry") == Some("1");
    assert Effective(AFTER, map[], "kind", Some(h.defName), "entry") == Some("2");
    assert h.DiffersAt(BEFORE, AFTER, map[], Some(h.defName), 0);
    h.NobodyNamed(base, h.Visited(BEFORE, AFTER, false), BEFORE, AFTER, map[], false);
  }

  lemma OnlyOne(h: Handler, base: seq<Report>, visited: set<Name>, name: Name, a: Database, b: Database,
                defaults: Defaults)
    requires h.OncePer(base, visited, a, b, defaults, false) && name in visited
    requires forall n :: n in visited ==> (h.Affected(a, b, defaults, n, false) <==> n == name)
    ensures |base| == 1 && base[0].name == name
  {
    hide Handler.Affected, Handler.OncePer;
    h.Told(base, visited, name, a, b, defaults, false);
    h.CallFacts(base, visited, 0, a, b, defaults, false);
    if |base| > 1 {
      h.CallFacts(base, visited, 1, a, b, defaults, false);
    }
  }

  // A change of the unnamed section is heard by a named section that has no value of its own, whatever
  // the schema says.
  method UnnamedHeard(h: Handler, value: Value)
    requires (h.mode == Named || h.mode == NamedMandatory) && h.kind == "kind" && h.entries == ["entry"]
    modifies h
    ensures h.calls == old(h.calls) + [Report(Some("n"), Some(map[]), Some(map[]), [true])]
  {
    ghost var name := Some("n");
    var defaults: Defaults := map[("kind", "entry") := value];
    var a: Database := map["kind" := map[Some("n") := map[], None := map["entry" := "1"]]];
    var b: Database := map["kind" := map[Some("n") := map[], None := map["entry" := "2"]]];
    ghost var base := h.HandleSection(a, b, defaults, false);
    UnnamedValue(a, defaults, "kind", name, "entry");
    UnnamedValue(b, defaults, "kind", name, "entry");
    hide Effective;
    assert h.DiffersAt(a, b, defaults, name, 0);
    assert h.Visited(a, b, false) == {name, None};
    OnlyOne(h, base, {name, None}, name, a, b, defaults);
    assert h.Flags(a, b, defaults, name) == [true];
    assert base == [h.TrueReport(a, b, defaults, name, false)];
  }

  // A named section without entries is heard when it comes.
  method SectionHeard(h: Handler, defaults: Defaults)
    requires (h.mode == Named || h.mode == NamedMandatory) && h.kind == "kind" && h.entries == ["entry"]
    modifies h
    ensures h.calls == old(h.calls) + [Report(Some("n"), None, Some(map[]), [false])]
  {
    ghost var name := Some("n");
    var b: Database := map["kind" := map[Some("n") := map[]]];
    ghost var base := h.HandleSection(map[], b, defaults, false);
    assert !h.DiffersAt(map[], b, defaults, name, 0);
    assert h.Visited(map[], b, false) == {name};
    OnlyOne(h, base, {name}, name, map[], b, defaults);
    assert h.Flags(map[], b, defaults, name) == [false];
    assert base == [h.TrueReport(map[], b, defaults, name, false)];
  }

  // The first section, with the default name and a value: the handler is called twice for it.
  method CalledTwice(h: Handler)
    requires h.mode == NamedWithDefault && h.kind == "kind" && h.entries == ["entry"]
    modifies h
    ensures
      var b: Database := map["kind" := map[Some(h.defName) := map["entry" := "2"]]];
      var n := |old(h.calls)|;
      && !h.Handled(map[], b, map[], false)
      && |h.calls| == n + 2 && h.calls[n].name == h.calls[n + 1].name == Some(h.defName)
  {
    ghost var name := Some(h.defName);
    var b: Database := map["kind" := map[Some(h.defName) := map["entry" := "2"]]];
    ghost var base := h.HandleSection(map[], b, map[], false);
    assert Effective(map[], map[], "kind", name, "entry") == None;
    assert Effective(b, map[], "kind", name, "entry") == Some("2");
    assert h.DiffersAt(map[], b, map[], name, 0);
    assert name in h.Visited(map[], b, false) && h.Affected(map[], b, map[], name, false);
    assert h.Visited(map[], b, false) == {name};
    OnlyOne(h, base, {name}, name, map[], b, map[]);
  }

  // The first section, with another name: the handler is called for the default name with no section
  // before and none after, although it had one before.
  method CalledForNothing(h: Handler)
    requires h.mode == NamedWithDefault && h.kind == "kind" && h.entries == ["entry"] && h.defName != "other"
    modifies h
    ensures
      var b: Database := map["kind" := map[Some("other") := map[]]];
      && h.Before(map[], Some(h.defName), false) == Some(map[])
      && h.calls != [] && h.calls[|h.calls| - 1] == Report(Some(h.defName), None, None, [false])
  {
    var b: Database := map["kind" := map[Some("other") := map[]]];
    ghost var base := h.HandleSection(map[], b, map[], false);
    assert Some("other") in Names(b, "kind");
    assert Effective(map[], map[], "kind", Some(h.defName), "entry") == None;
    assert Effective(b, map[], "kind", Some(h.defName), "entry") == None;
    assert h.Flags(map[], b, map[], Some(h.defName)) == [false];
  }

  // _handle_db_changes: every handler is called exactly once for each instance that is affected if and
  // only if its type is handled as it should be.
  method HandleChanges(handlers: seq<Handler>, a: Database, b: Database, defaults: Defaults, startup: bool)
    requires forall i, j :: 0 <= i < j < |handlers| ==> handlers[i] != handlers[j]
    modifies handlers
    ensures forall h :: h in handlers ==> h.Answered(old(h.calls), a, b, defaults, startup)
  {
    hide Handler.Exact, Handler.Answered;
    var i := 0;
    while i < |handlers|
      invariant 0 <= i <= |handlers|
      invariant forall k :: i <= k < |handlers| ==> handlers[k].calls == old(handlers[k].calls)
      invariant forall k :: 0 <= k < i ==> handlers[k].Answered(old(handlers[k].calls), a, b, defaults, startup)
    {
      var _ := handlers[i].HandleSection(a, b, defaults, startup);
      i := i + 1;
    }
  }

  // Other types are always handled as they should be, and truthfully.
  lemma PlainHandled(h: Handler, a: Database, b: Database, defaults: Defaults, startup: bool)
    requires h.mode != NamedWithDefault
    ensures h.Handled(a, b, defaults, startup) && !h.DefaultGoes(a, b, startup)
    ensures forall name :: h.Before(a, name, startup) == FindSection(a, h.kind, name)
    ensures forall name :: h.After(b, name) == FindSection(b, h.kind, name)
  {
  }
}
