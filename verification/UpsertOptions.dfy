/**
 The option functions of Upsert (internal/models/psql_upsert.go), which its cache key leaves out: the part of the
 statement that they change, and a run in which that shows.
 */
module UpsertOptions {
  import opened Wrappers
  import opened CacheKey
  import opened StatementCache

  datatype Options = Options(conflictTarget: string, updateSet: string)

  function Quote(name: string): string {
    "\"" + name + "\""
  }

  function QuotedList(names: seq<string>): string {
    if names == [] then ""
    else if |names| == 1 then Quote(names[0])
    else Quote(names[0]) + ", " + QuotedList(names[1..])
  }

  /** The assignments, with a comma before each but the first; empty names are passed over. */
  function Assignments(names: seq<string>): string {
    if names == [] then ""
    else
      var last := |names| - 1;
      Assignments(names[..last]) +
      if names[last] == "" then ""
      else (if last == 0 then "" else ",") + Quote(names[last]) + " = EXCLUDED." + Quote(names[last])
  }

  /** What follows ON CONFLICT in the statement. The target is the option's, or else the conflict columns. */
  function ConflictClause(updateOnConflict: bool, update: seq<string>, conflict: seq<string>, o: Options): string {
    (if o.conflictTarget != "" then o.conflictTarget
     else if conflict != [] then "(" + QuotedList(conflict) + ")"
     else "") +
    " " +
    if !updateOnConflict || update == [] then "DO NOTHING"
    else "DO UPDATE SET " + if o.updateSet != "" then o.updateSet else Assignments(update)
  }

  /** The upsert cache, each statement reduced to that clause. */
  function ClauseMaker(): Maker<(UpsertArgs, Options), string> {
    Maker((c: (UpsertArgs, Options)) => UpsertKey(c.0),
          (c: (UpsertArgs, Options)) =>
            Some(ConflictClause(c.0.updateOnConflict, c.0.update.cols, c.0.conflict, c.1)))
  }

  /** An upsert of a token that does nothing on conflict, without or with a conflict target. */
  const UPSERT := UpsertArgs(false, [], Columns(0, []), Columns(0, []), [])
  const NO_OPTIONS := Options("", "")
  const ON_TOKEN := Options("(token)", "")

  /** A call with a conflict target can be served the statement of a call without one. */
  lemma ConflictTargetIgnored() returns (run: seq<(Thread, Action<(UpsertArgs, Options)>)>)
    ensures
      var all := (c: (UpsertArgs, Options)) => c.0 == UPSERT;
      && CanRun(ClauseMaker(), all, State(map[], map[]), run)
      && !Transparent(ClauseMaker(), Run(ClauseMaker(), all, State(map[], map[]), run))
  {
    var all := (c: (UpsertArgs, Options)) => c.0 == UPSERT;
    var a, b := (UPSERT, NO_OPTIONS), (UPSERT, ON_TOKEN);
    var m := ClauseMaker();
    assert ConflictClause(false, [], [], NO_OPTIONS)[0] == ' ';
    assert ConflictClause(false, [], [], ON_TOKEN)[0] == '(';
    assert m.build(a) != m.build(b);
    FillThenHitServes(m, all, a, b);
    run := FillThenHit(a, b);
  }
}
