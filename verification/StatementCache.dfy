/**
 The statement caches of the generated models (Insert, Update and Upsert in
 internal/models/access_tokens.go): look the key up under a read lock, else build the statement,
 run it, and store what was built under a write lock. Any number of threads interleave these steps.
 */
module StatementCache {
  import opened Wrappers
  import opened CacheKey

  type Thread = nat

  /** What a cache is made of: the key of some arguments, and the statement built from them, if any. */
  datatype Maker<!A, !E> = Maker(key: A -> string, build: A -> Option<E>)

  datatype Pc<A, E> =
    | Idle
    | Missed(args: A)               // not in the cache: the statement is being built
    | Built(args: A, entry: E)      // built by this thread, about to run and be stored
    | Ran(args: A, entry: E)        // ran with this statement

  datatype State<A, E> = State(cache: map<string, E>, pcs: map<Thread, Pc<A, E>>)

  datatype Action<A> = Call(args: A) | Advance | ExecFails

  function PcOf<A, E>(s: State<A, E>, t: Thread): Pc<A, E> {
    if t in s.pcs then s.pcs[t] else Idle
  }

  predicate Can<A, E>(s: State<A, E>, t: Thread, a: Action<A>) {
    match PcOf(s, t)
    case Idle => a.Call?
    case Ran(_, _) => a.Call?
    case Missed(_) => a.Advance?
    case Built(_, _) => a.Advance? || a.ExecFails?
  }

  function Do<A, E>(m: Maker<A, E>, s: State<A, E>, t: Thread, a: Action<A>): State<A, E>
    requires Can(s, t, a)
  {
    if a.Call? then
      var key := m.key(a.args);
      s.(pcs := s.pcs[t := if key in s.cache then Ran(a.args, s.cache[key]) else Missed(a.args)])
    else match PcOf(s, t)
      case Missed(args) =>
        s.(pcs := s.pcs[t := if m.build(args).Some? then Built(args, m.build(args).value) else Idle])
      case Built(args, entry) =>
        if a.ExecFails? then s.(pcs := s.pcs[t := Idle])
        else State(s.cache[m.key(args) := entry], s.pcs[t := Ran(args, entry)])
      case Idle => s
      case Ran(_, _) => s
  }

  ghost predicate CanRun<A(!new), E>(m: Maker<A, E>, allowed: A -> bool, s: State<A, E>, run: seq<(Thread, Action<A>)>)
    decreases |run|
  {
    run == [] ||
    (&& Can(s, run[0].0, run[0].1)
     && (run[0].1.Call? ==> allowed(run[0].1.args))
     && CanRun(m, allowed, Do(m, s, run[0].0, run[0].1), run[1..]))
  }

  ghost function Run<A(!new), E>(m: Maker<A, E>, allowed: A -> bool, s: State<A, E>,
                                 run: seq<(Thread, Action<A>)>): State<A, E>
    requires CanRun(m, allowed, s, run)
    decreases |run|
  {
    if run == [] then s else Run(m, allowed, Do(m, s, run[0].0, run[0].1), run[1..])
  }

  /** Nobody can tell that there is a cache: every thread runs the statement its own arguments build. */
  ghost predicate Transparent<A, E>(m: Maker<A, E>, s: State<A, E>) {
    forall t :: t in s.pcs && s.pcs[t].Ran? ==> m.build(s.pcs[t].args) == Some(s.pcs[t].entry)
  }

  /** Arguments with one key build one statement. */
  ghost predicate KeySuffices<A(!new), E>(m: Maker<A, E>, allowed: A -> bool) {
    forall a, b :: allowed(a) && allowed(b) && m.key(a) == m.key(b) && m.build(a).Some? ==> m.build(a) == m.build(b)
  }

  ghost predicate EntryOf<A(!new), E>(m: Maker<A, E>, allowed: A -> bool, key: string, entry: E, a: A) {
    allowed(a) && m.key(a) == key && m.build(a) == Some(entry)
  }

  ghost predicate Inv<A(!new), E>(m: Maker<A, E>, allowed: A -> bool, s: State<A, E>) {
    && (forall key :: key in s.cache ==> exists a :: EntryOf(m, allowed, key, s.cache[key], a))
    && (forall t :: t in s.pcs ==>
          match s.pcs[t]
          case Idle => true
          case Missed(args) => allowed(args)
          case Built(args, entry) => allowed(args) && m.build(args) == Some(entry)
          case Ran(args, entry) => allowed(args) && m.build(args) == Some(entry))
  }

  lemma ActionKeepsInv<A(!new), E>(m: Maker<A, E>, allowed: A -> bool, s: State<A, E>, t: Thread, a: Action<A>)
    requires Inv(m, allowed, s) && KeySuffices(m, allowed) && Can(s, t, a) && (a.Call? ==> allowed(a.args))
    ensures Inv(m, allowed, Do(m, s, t, a))
  {
    if a.Call? && m.key(a.args) in s.cache {
      var b :| EntryOf(m, allowed, m.key(a.args), s.cache[m.key(a.args)], b);
    } else if PcOf(s, t).Built? && a.Advance? {
      var pc := PcOf(s, t);
      assert EntryOf(m, allowed, m.key(pc.args), pc.entry, pc.args);
    }
  }

  lemma {:induction false} RunKeepsInv<A(!new), E>(m: Maker<A, E>, allowed: A -> bool, s: State<A, E>,
                                                   run: seq<(Thread, Action<A>)>)
    requires Inv(m, allowed, s) && KeySuffices(m, allowed) && CanRun(m, allowed, s, run)
    ensures Inv(m, allowed, Run(m, allowed, s, run))
    decreases |run|
  {
    if run != [] {
      ActionKeepsInv(m, allowed, s, run[0].0, run[0].1);
      RunKeepsInv(m, allowed, Do(m, s, run[0].0, run[0].1), run[1..]);
    }
  }

  /** The run in which a fills the cache and b is served from it. */
  ghost function FillThenHit<A>(a: A, b: A): seq<(Thread, Action<A>)> {
    [(0, Call(a)), (0, Advance), (0, Advance), (1, Call(b))]
  }

  lemma FillThenHitServes<A(!new), E>(m: Maker<A, E>, allowed: A -> bool, a: A, b: A)
    requires allowed(a) && allowed(b) && m.key(a) == m.key(b) && m.build(a).Some?
    ensures CanRun(m, allowed, State(map[], map[]), FillThenHit(a, b))
    ensures var end := Run(m, allowed, State(map[], map[]), FillThenHit(a, b));
      1 in end.pcs && end.pcs[1] == Ran(b, m.build(a).value)
  {
    var run: seq<(Thread, Action<A>)> := FillThenHit(a, b);
    var s0: State<A, E> := State(map[], map[]);
    var s1 := Do(m, s0, 0, Call(a));
    var s2 := Do(m, s1, 0, Advance);
    var s3 := Do(m, s2, 0, Advance);
    var s4 := Do(m, s3, 1, Call(b));
    FirstStep(m, allowed, s3, run[3..], s4);
    FirstStep(m, allowed, s2, run[2..], s4);
    FirstStep(m, allowed, s1, run[1..], s4);
    FirstStep(m, allowed, s0, run, s4);
  }

  lemma FirstStep<A(!new), E>(m: Maker<A, E>, allowed: A -> bool, s: State<A, E>, run: seq<(Thread, Action<A>)>,
                              end: State<A, E>)
    requires run != [] && Can(s, run[0].0, run[0].1) && (run[0].1.Call? ==> allowed(run[0].1.args))
    requires CanRun(m, allowed, Do(m, s, run[0].0, run[0].1), run[1..])
    requires Run(m, allowed, Do(m, s, run[0].0, run[0].1), run[1..]) == end
    ensures CanRun(m, allowed, s, run) && Run(m, allowed, s, run) == end
  {
  }

  /** The cache is transparent in every run if and only if arguments with one key build one statement. */
  lemma TransparentExactly<A(!new), E>(m: Maker<A, E>, allowed: A -> bool)
    ensures KeySuffices(m, allowed) <==>
      forall run ::
        CanRun(m, allowed, State(map[], map[]), run) ==> Transparent(m, Run(m, allowed, State(map[], map[]), run))
  {
    var s0: State<A, E> := State(map[], map[]);
    if KeySuffices(m, allowed) {
      forall run | CanRun(m, allowed, s0, run) ensures Transparent(m, Run(m, allowed, s0, run)) {
        RunKeepsInv(m, allowed, s0, run);
      }
    } else {
      var a, b :| allowed(a) && allowed(b) && m.key(a) == m.key(b) && m.build(a).Some? && m.build(a) != m.build(b);
      FillThenHitServes(m, allowed, a, b);
      assert !Transparent(m, Run(m, allowed, s0, FillThenHit(a, b)));
    }
  }

  /******* When a statement is cached *******/

  /** Some thread ran a statement under this key without error. */
  ghost predicate RanUnder<A(!new), E>(m: Maker<A, E>, s: State<A, E>, key: string) {
    exists t :: t in s.pcs && s.pcs[t].Ran? && m.key(s.pcs[t].args) == key
  }

  /** That was so in some state along the run. */
  ghost predicate EverRan<A(!new), E>(m: Maker<A, E>, allowed: A -> bool, s: State<A, E>, run: seq<(Thread, Action<A>)>,
                                      key: string)
    requires CanRun(m, allowed, s, run)
    decreases |run|
  {
    RanUnder(m, s, key) || (run != [] && EverRan(m, allowed, Do(m, s, run[0].0, run[0].1), run[1..], key))
  }

  /** A step changes what is cached only for a key that a thread has then run, and never takes a key out. */
  lemma StepCaches<A(!new), E>(m: Maker<A, E>, s: State<A, E>, t: Thread, a: Action<A>, key: string)
    requires Can(s, t, a) && (RanUnder(m, s, key) ==> key in s.cache)
    ensures
      var s' := Do(m, s, t, a);
      key in s'.cache <==> key in s.cache || RanUnder(m, s', key)
  {
    var s' := Do(m, s, t, a);
    if RanUnder(m, s', key) {
      var u :| u in s'.pcs && s'.pcs[u].Ran? && m.key(s'.pcs[u].args) == key;
      assert u != t ==> u in s.pcs && s'.pcs[u] == s.pcs[u];
    }
    if key in s'.cache && key !in s.cache {
      assert s'.pcs[t].Ran? && m.key(s'.pcs[t].args) == key;
    }
  }

  lemma {:induction false} CachedAlong<A(!new), E>(m: Maker<A, E>, allowed: A -> bool, s: State<A, E>,
                                                   run: seq<(Thread, Action<A>)>, key: string)
    requires CanRun(m, allowed, s, run) && (RanUnder(m, s, key) ==> key in s.cache)
    ensures key in Run(m, allowed, s, run).cache <==> key in s.cache || EverRan(m, allowed, s, run, key)
    decreases |run|
  {
    if run != [] {
      StepCaches(m, s, run[0].0, run[0].1, key);
      CachedAlong(m, allowed, Do(m, s, run[0].0, run[0].1), run[1..], key);
    }
  }

  /** A statement that failed is not cached: a key is cached exactly if some thread ran without error under it. */
  lemma CachedExactly<A(!new), E>(m: Maker<A, E>, allowed: A -> bool, run: seq<(Thread, Action<A>)>, key: string)
    requires CanRun(m, allowed, State(map[], map[]), run)
    ensures key in Run(m, allowed, State(map[], map[]), run).cache <==>
      EverRan(m, allowed, State(map[], map[]), run, key)
  {
    CachedAlong(m, allowed, State(map[], map[]), run, key);
  }

  /** A call runs at once exactly if its key is cached, and a failed statement leaves its thread as if not called. */
  lemma CallsAndFailures<A, E>(m: Maker<A, E>, s: State<A, E>, t: Thread, a: Action<A>)
    requires Can(s, t, a)
    ensures a.Call? ==> (PcOf(Do(m, s, t, a), t).Ran? <==> m.key(a.args) in s.cache)
    ensures a.ExecFails? ==> Do(m, s, t, a).cache == s.cache && PcOf(Do(m, s, t, a), t).Idle?
    ensures forall u :: u != t ==> PcOf(Do(m, s, t, a), u) == PcOf(s, u)
  {
  }

  /******* The three caches *******/

  /** The insert cache, and the update cache, whose key has no defaults. */
  lemma InsertCacheTransparent<E>(names: set<string>, m: Maker<KeyArgs, E>, allowed: KeyArgs -> bool,
                                  run: seq<(Thread, Action<KeyArgs>)>)
    requires ColumnNames(names) && forall a :: allowed(a) ==> ArgsOver(names, a)
    requires forall a :: m.key(a) == Key(a)
    requires CanRun(m, allowed, State(map[], map[]), run)
    ensures Transparent(m, Run(m, allowed, State(map[], map[]), run))
  {
    forall a, b | allowed(a) && allowed(b) && m.key(a) == m.key(b) ensures a == b {
      KeyInjective(names, a, b);
    }
    RunKeepsInv(m, allowed, State(map[], map[]), run);
  }

  lemma UpsertCacheTransparent<E>(names: set<string>, m: Maker<UpsertArgs, E>, allowed: UpsertArgs -> bool,
                                  run: seq<(Thread, Action<UpsertArgs>)>)
    requires ColumnNames(names) && forall a :: allowed(a) ==> UpsertArgsOver(names, a)
    requires forall a :: m.key(a) == UpsertKey(a)
    requires CanRun(m, allowed, State(map[], map[]), run)
    ensures Transparent(m, Run(m, allowed, State(map[], map[]), run))
  {
    forall a, b | allowed(a) && allowed(b) && m.key(a) == m.key(b) ensures a == b {
      UpsertKeyInjective(names, a, b);
    }
    RunKeepsInv(m, allowed, State(map[], map[]), run);
  }

  /** Statements of Upsert that no option changes. */
  ghost predicate OptionsIrrelevant<O(!new), E>(m: Maker<(UpsertArgs, O), E>, allowed: ((UpsertArgs, O)) -> bool) {
    forall args, o, o' :: allowed((args, o)) && allowed((args, o')) && m.build((args, o)).Some? ==>
      m.build((args, o)) == m.build((args, o'))
  }

  /**
   Upsert also takes option functions, and its key leaves them out: with options the cache is transparent
   in every run exactly when no allowed options change a statement.
   */
  lemma UpsertWithOptions<O(!new), E>(names: set<string>, m: Maker<(UpsertArgs, O), E>,
                                      allowed: ((UpsertArgs, O)) -> bool)
    requires ColumnNames(names) && forall c :: allowed(c) ==> UpsertArgsOver(names, c.0)
    requires forall c :: m.key(c) == UpsertKey(c.0)
    ensures OptionsIrrelevant(m, allowed) <==>
      forall run ::
        CanRun(m, allowed, State(map[], map[]), run) ==> Transparent(m, Run(m, allowed, State(map[], map[]), run))
  {
    TransparentExactly(m, allowed);
    if OptionsIrrelevant(m, allowed) {
      forall a, b | allowed(a) && allowed(b) && m.key(a) == m.key(b) && m.build(a).Some?
        ensures m.build(a) == m.build(b)
      {
        UpsertKeyInjective(names, a.0, b.0);
        assert a == (a.0, a.1) && b == (a.0, b.1);
      }
    } else {
      var args, o, o' :| allowed((args, o)) && allowed((args, o')) && m.build((args, o)).Some?
                         && m.build((args, o)) != m.build((args, o'));
      assert m.key((args, o)) == m.key((args, o'));
    }
  }

  ghost predicate EntryBuilt<E>(names: set<string>, build: KeyArgs -> Option<E>, key: string, entry: E, a: KeyArgs) {
    ArgsOver(names, a) && Key(a) == key && build(a) == Some(entry)
  }

  ghost predicate AllBuilt<E>(names: set<string>, build: KeyArgs -> Option<E>, cache: map<string, E>) {
    forall key :: key in cache ==> exists a :: EntryBuilt(names, build, key, cache[key], a)
  }

  lemma HitIsBuilt<E>(names: set<string>, build: KeyArgs -> Option<E>, cache: map<string, E>, args: KeyArgs)
    requires ColumnNames(names) && AllBuilt(names, build, cache) && ArgsOver(names, args) && Key(args) in cache
    ensures build(args) == Some(cache[Key(args)])
  {
    var key := Key(args);
    var a :| EntryBuilt(names, build, key, cache[key], a);
    KeyInjective(names, a, args);
  }

  lemma StoreIsBuilt<E>(names: set<string>, build: KeyArgs -> Option<E>, cache: map<string, E>, args: KeyArgs, entry: E)
    requires AllBuilt(names, build, cache) && ArgsOver(names, args) && build(args) == Some(entry)
    ensures AllBuilt(names, build, cache[Key(args) := entry])
  {
    assert EntryBuilt(names, build, Key(args), entry, args);
  }

  lemma StoredAgain<E>(cache: map<string, E>, key: string)
    requires key in cache
    ensures cache[key := cache[key]] == cache
  {
  }

  /** The insert cache as the object one thread at a time sees. */
  class InsertCache<E> {
    const names: set<string>
    const build: KeyArgs -> Option<E>
    var cache: map<string, E>

    ghost predicate Valid()
      reads this
    {
      ColumnNames(names) && AllBuilt(names, build, cache)
    }

    constructor (names: set<string>, build: KeyArgs -> Option<E>)
      requires ColumnNames(names)
      ensures Valid() && this.names == names && this.build == build && cache == map[]
    {
      this.names, this.build, cache := names, build, map[];
    }

    /** Runs the statement of its arguments, cached or not, and caches it when it ran without error. */
    method Insert(args: KeyArgs, execFails: bool) returns (statement: Option<E>)
      requires Valid() && ArgsOver(names, args)
      modifies this
      ensures Valid()
      ensures statement == build(args)
      ensures cache == if statement.Some? && !execFails then old(cache)[Key(args) := statement.value] else old(cache)
    {
      var key := MakeCacheKey(args.columns, args.nzDefaults);
      var cached := key in cache;
      if cached {
        HitIsBuilt(names, build, cache, args);
        statement := Some(cache[key]);
        StoredAgain(cache, key);
      } else {
        statement := build(args);
      }
      if statement.None? || execFails {
        return;
      }
      if !cached {
        StoreIsBuilt(names, build, cache, args, statement.value);
        cache := cache[key := statement.value];
      }
    }
  }
}
