/**
 The keys of the statement caches (internal/models/boil_types.go and Upsert in
 internal/models/access_tokens.go): column names run together without separators. They tell
 argument lists apart because no column name is a prefix of another.
 */
module CacheKey {
  import opened Strings
  /** A column set: its kind and its names. */
  datatype Columns = Columns(kind: int, cols: seq<string>)

  /******* strconv.Itoa *******/

  predicate IsDigit(c: char) {
    '0' <= c <= '9'
  }

  function Digits(n: nat): (s: string)
    ensures s != [] && forall c :: c in s ==> IsDigit(c)
  {
    (if n < 10 then [] else Digits(n / 10)) + ['0' + (n % 10) as char]
  }

  function Itoa(n: int): (s: string)
    ensures s != [] && IsDigit(s[|s| - 1])
  {
    if n < 0 then ['-'] + Digits(-n) else Digits(n)
  }

  function DigitValue(c: char): (d: int)
    requires IsDigit(c)
  {
    c as int - '0' as int
  }

  /** What a text of digits stands for: its last digit, and ten times the rest. */
  function Decimal(s: string): (n: nat)
    requires forall i :: 0 <= i < |s| ==> IsDigit(s[i])
  {
    if s == [] then 0 else 10 * Decimal(s[..|s| - 1]) + DigitValue(s[|s| - 1])
  }

  /** Itoa is decimal notation, with a minus sign for the negative and no leading zero. */
  lemma {:induction false} DigitsAreDecimal(n: nat)
    ensures Decimal(Digits(n)) == n
    ensures Digits(n)[0] == '0' <==> n == 0
  {
    var s := Digits(n);
    if n >= 10 {
      DigitsAreDecimal(n / 10);
      assert s[..|s| - 1] == Digits(n / 10);
    } else {
      assert s[..|s| - 1] == [];
    }
  }

  lemma ItoaIsDecimal(n: int)
    ensures n >= 0 ==> (forall c :: c in Itoa(n) ==> IsDigit(c)) && Decimal(Itoa(n)) == n
    ensures
      n < 0 ==>
        && Itoa(n)[0] == '-'
        && (forall c :: c in Itoa(n)[1..] ==> IsDigit(c))
        && Decimal(Itoa(n)[1..]) == -n
    ensures Itoa(n)[0] == '0' ==> n == 0
  {
    DigitsAreDecimal(if n < 0 then -n else n);
  }

  lemma {:induction false} DigitsInjective(m: nat, n: nat)
    requires Digits(m) == Digits(n)
    ensures m == n
  {
    var a, b := Digits(m), Digits(n);
    assert a[..|a| - 1] == if m < 10 then [] else Digits(m / 10);
    assert b[..|b| - 1] == if n < 10 then [] else Digits(n / 10);
    assert a[|a| - 1] == '0' + (m % 10) as char && b[|b| - 1] == '0' + (n % 10) as char;
    if m >= 10 {
      DigitsInjective(m / 10, n / 10);
    }
  }

  predicate NotDot(c: char) {
    c != '.'
  }

  /** How long the text goes on satisfying p. */
  function RunLength(p: char -> bool, s: string): nat {
    if s != [] && p(s[0]) then 1 + RunLength(p, s[1..]) else 0
  }

  /** Where a run of p ends is visible in the text, so the text has one cut there. */
  lemma {:induction false} RunEnds(p: char -> bool, a: string, x: string)
    requires (forall c :: c in a ==> p(c)) && (x == [] || !p(x[0]))
    ensures RunLength(p, a + x) == |a|
    ensures (a + x)[..|a|] == a && (a + x)[|a|..] == x
  {
    if a == [] {
      assert a + x == x;
    } else {
      assert a[0] in a && (a + x)[1..] == a[1..] + x;
      RunEnds(p, a[1..], x);
    }
  }

  /** Numbers written with Itoa end where something other than a digit begins. */
  predicate NoLeadingDigit(s: string) {
    s == [] || !IsDigit(s[0])
  }

  lemma NegativesStartWithMinus(n: int, x: string)
    ensures (Itoa(n) + x)[0] == '-' <==> n < 0
    ensures n < 0 ==> (Itoa(n) + x)[1..] == Digits(-n) + x
  {
    var d := Digits(if n < 0 then -n else n);
    assert d[0] in d;
    assert (Itoa(n) + x)[0] == Itoa(n)[0];
  }

  lemma ItoaParses(m: int, x: string, n: int, y: string)
    requires NoLeadingDigit(x) && NoLeadingDigit(y)
    requires Itoa(m) + x == Itoa(n) + y
    ensures m == n && x == y
  {
    NegativesStartWithMinus(m, x);
    NegativesStartWithMinus(n, y);
    var a, b := if m < 0 then -m else m, if n < 0 then -n else n;
    RunEnds(IsDigit, Digits(a), x);
    RunEnds(IsDigit, Digits(b), y);
    DigitsInjective(a, b);
  }

  /******* Unique decodability *******/

  /** Names as the schema has them: not empty, no digit first, no dot, none a prefix of another. */
  ghost predicate ColumnNames(names: set<string>) {
    && (forall n :: n in names ==> n != [] && !IsDigit(n[0]) && '.' !in n)
    && (forall m, n :: m in names && n in names && m <= n ==> m == n)
  }

  ghost predicate Over(names: set<string>, cols: seq<string>) {
    forall c :: c in cols ==> c in names
  }

  lemma {:induction false} ConcatShape(names: set<string>, cols: seq<string>)
    requires ColumnNames(names) && Over(names, cols)
    ensures '.' !in Concat(cols)
    ensures NoLeadingDigit(Concat(cols))
    ensures Concat(cols) == [] <==> cols == []
  {
    if cols != [] {
      assert cols[0] in cols;
      ConcatShape(names, cols[1..]);
      assert Concat(cols)[0] == cols[0][0];
    }
  }

  lemma PrefixesComparable(s: string, a: string, b: string)
    requires a <= s && b <= s
    ensures a <= b || b <= a
  {
  }

  /** A run of names has one reading. */
  lemma {:induction false} ConcatDecodes(names: set<string>, a: seq<string>, b: seq<string>)
    requires ColumnNames(names) && Over(names, a) && Over(names, b)
    requires Concat(a) == Concat(b)
    ensures a == b
  {
    ConcatShape(names, a);
    ConcatShape(names, b);
    if a != [] {
      assert a[0] in a && b[0] in b;
      var s := Concat(a);
      assert s[..|a[0]|] == a[0] && s[..|b[0]|] == b[0];
      PrefixesComparable(s, a[0], b[0]);
      assert s[|a[0]|..] == Concat(a[1..]) && s[|b[0]|..] == Concat(b[1..]);
      ConcatDecodes(names, a[1..], b[1..]);
      assert a == [a[0]] + a[1..] && b == [b[0]] + b[1..];
    }
  }

  /** Two texts cut at their first dots agree part by part. */
  lemma SplitAtDot(a: string, x: string, b: string, y: string)
    requires '.' !in a && '.' !in b && a + ['.'] + x == b + ['.'] + y
    ensures a == b && x == y
  {
    assert a + ['.'] + x == a + (['.'] + x) && b + ['.'] + y == b + (['.'] + y);
    RunEnds(NotDot, a, ['.'] + x);
    RunEnds(NotDot, b, ['.'] + y);
    assert x == (['.'] + x)[1..] && y == (['.'] + y)[1..];
  }

  /******* makeCacheKey *******/

  /** The arguments the insert and update caches are keyed by. */
  datatype KeyArgs = KeyArgs(columns: Columns, nzDefaults: seq<string>)

  function Tail(nzDefaults: seq<string>): string {
    if nzDefaults == [] then [] else ['.'] + Concat(nzDefaults)
  }

  function Key(args: KeyArgs): string {
    Itoa(args.columns.kind) + Concat(args.columns.cols) + Tail(args.nzDefaults)
  }

  lemma {:induction false} ConcatSnoc(cols: seq<string>, c: string)
    ensures Concat(cols + [c]) == Concat(cols) + c
  {
    if cols == [] {
      assert [] + [c] == [c] && Concat([c]) == c + Concat([]);
    } else {
      ConcatSnoc(cols[1..], c);
      assert (cols + [c])[1..] == cols[1..] + [c];
      assert Concat(cols + [c]) == cols[0] + (Concat(cols[1..]) + c);
    }
  }

  /** Writes the names to the end of the buffer, one by one. */
  method WriteNames(buf: string, names: seq<string>) returns (out: string)
    ensures out == buf + Concat(names)
  {
    out := buf;
    for i := 0 to |names|
      invariant out == buf + Concat(names[..i])
    {
      out := out + names[i];
      ConcatSnoc(names[..i], names[i]);
      assert names[..i + 1] == names[..i] + [names[i]];
    }
    assert names[..|names|] == names;
  }

  method MakeCacheKey(columns: Columns, nzDefaults: seq<string>) returns (key: string)
    ensures key == Key(KeyArgs(columns, nzDefaults))
  {
    var buf := WriteNames(Itoa(columns.kind), columns.cols);
    if |nzDefaults| != 0 {
      buf := buf + ['.'];
    }
    key := WriteNames(buf, nzDefaults);
  }

  ghost predicate ArgsOver(names: set<string>, args: KeyArgs) {
    Over(names, args.columns.cols) && Over(names, args.nzDefaults)
  }

  /** The tail of a key never starts with a digit, and a head without dots determines it. */
  lemma HeadAndTail(a: string, x: seq<string>, b: string, y: seq<string>)
    requires '.' !in a && '.' !in b && a + Tail(x) == b + Tail(y)
    ensures a == b && Tail(x) == Tail(y)
  {
    RunEnds(NotDot, a, Tail(x));
    RunEnds(NotDot, b, Tail(y));
  }

  lemma KeyShape(names: set<string>, args: KeyArgs)
    requires ColumnNames(names) && ArgsOver(names, args)
    ensures
      var rest := Concat(args.columns.cols) + Tail(args.nzDefaults);
      Key(args) == Itoa(args.columns.kind) + rest && NoLeadingDigit(rest) && '.' !in Concat(args.columns.cols)
  {
    ConcatShape(names, args.columns.cols);
  }

  /** The parts of a key can be told apart. */
  lemma KeyParts(names: set<string>, p: KeyArgs, q: KeyArgs)
    requires ColumnNames(names) && ArgsOver(names, p) && ArgsOver(names, q)
    requires Key(p) == Key(q)
    ensures p.columns.kind == q.columns.kind
    ensures Concat(p.columns.cols) == Concat(q.columns.cols) && Tail(p.nzDefaults) == Tail(q.nzDefaults)
  {
    var a, b := Concat(p.columns.cols), Concat(q.columns.cols);
    KeyShape(names, p);
    KeyShape(names, q);
    ItoaParses(p.columns.kind, a + Tail(p.nzDefaults), q.columns.kind, b + Tail(q.nzDefaults));
    HeadAndTail(a, p.nzDefaults, b, q.nzDefaults);
  }

  lemma TailDecodes(names: set<string>, x: seq<string>, y: seq<string>)
    requires ColumnNames(names) && Over(names, x) && Over(names, y) && Tail(x) == Tail(y)
    ensures x == y
  {
    if x != [] || y != [] {
      assert x != [] && y != [];
      assert Concat(x) == Tail(x)[1..] == Tail(y)[1..] == Concat(y);
      ConcatDecodes(names, x, y);
    }
  }

  /** Over such names makeCacheKey is injective. */
  lemma KeyInjective(names: set<string>, p: KeyArgs, q: KeyArgs)
    requires ColumnNames(names) && ArgsOver(names, p) && ArgsOver(names, q)
    requires Key(p) == Key(q)
    ensures p == q
  {
    KeyParts(names, p, q);
    ConcatDecodes(names, p.columns.cols, q.columns.cols);
    TailDecodes(names, p.nzDefaults, q.nzDefaults);
  }

  /** Without prefix-freedom it is not: these two column lists share every key. */
  lemma KeyCollides(kind: int)
    ensures Key(KeyArgs(Columns(kind, ["a", "b"]), [])) == Key(KeyArgs(Columns(kind, ["ab"]), []))
  {
    assert Concat(["a", "b"]) == "a" + Concat(["b"]) && Concat(["b"]) == "b" + Concat([]);
    assert Concat(["ab"]) == "ab" + Concat([]);
    assert "a" + "b" == "ab";
  }

  /******* The key of Upsert *******/

  datatype UpsertArgs = UpsertArgs(
    updateOnConflict: bool, conflict: seq<string>, update: Columns, insert: Columns, nzDefaults: seq<string>)

  function UpsertKey(args: UpsertArgs): string {
    (if args.updateOnConflict then "t" else "f") + "." +
    (Concat(args.conflict) + "." +
     (Itoa(args.update.kind) + Concat(args.update.cols) + "." +
      (Itoa(args.insert.kind) + Concat(args.insert.cols) + "." + Concat(args.nzDefaults))))
  }

  ghost predicate UpsertArgsOver(names: set<string>, args: UpsertArgs) {
    && Over(names, args.conflict) && Over(names, args.update.cols)
    && Over(names, args.insert.cols) && Over(names, args.nzDefaults)
  }

  lemma {:induction false} DigitsHaveNoDot(n: int)
    ensures '.' !in Itoa(n)
  {
    if n < 0 {
      assert forall c :: c in Digits(-n) ==> IsDigit(c);
    } else {
      assert forall c :: c in Digits(n) ==> IsDigit(c);
    }
  }

  lemma ColumnsParse(names: set<string>, p: Columns, q: Columns)
    requires ColumnNames(names) && Over(names, p.cols) && Over(names, q.cols)
    requires Itoa(p.kind) + Concat(p.cols) == Itoa(q.kind) + Concat(q.cols)
    ensures p == q
  {
    ConcatShape(names, p.cols);
    ConcatShape(names, q.cols);
    ItoaParses(p.kind, Concat(p.cols), q.kind, Concat(q.cols));
    ConcatDecodes(names, p.cols, q.cols);
  }

  lemma UpsertKeyInjective(names: set<string>, p: UpsertArgs, q: UpsertArgs)
    requires ColumnNames(names) && UpsertArgsOver(names, p) && UpsertArgsOver(names, q)
    requires UpsertKey(p) == UpsertKey(q)
    ensures p == q
  {
    var pi, qi := Itoa(p.insert.kind) + Concat(p.insert.cols), Itoa(q.insert.kind) + Concat(q.insert.cols);
    var pu, qu := Itoa(p.update.kind) + Concat(p.update.cols), Itoa(q.update.kind) + Concat(q.update.cols);
    var p3, q3 := pi + "." + Concat(p.nzDefaults), qi + "." + Concat(q.nzDefaults);
    var p2, q2 := pu + "." + p3, qu + "." + q3;
    NamesHaveNoDot(names, p);
    NamesHaveNoDot(names, q);
    SplitAtDot(if p.updateOnConflict then "t" else "f", Concat(p.conflict) + "." + p2,
               if q.updateOnConflict then "t" else "f", Concat(q.conflict) + "." + q2);
    SplitAtDot(Concat(p.conflict), p2, Concat(q.conflict), q2);
    SplitAtDot(pu, p3, qu, q3);
    SplitAtDot(pi, Concat(p.nzDefaults), qi, Concat(q.nzDefaults));
    ConcatDecodes(names, p.conflict, q.conflict);
    ConcatDecodes(names, p.nzDefaults, q.nzDefaults);
    ColumnsParse(names, p.update, q.update);
    ColumnsParse(names, p.insert, q.insert);
  }

  lemma NamesHaveNoDot(names: set<string>, p: UpsertArgs)
    requires ColumnNames(names) && UpsertArgsOver(names, p)
    ensures '.' !in Concat(p.conflict)
    ensures '.' !in Itoa(p.update.kind) + Concat(p.update.cols)
    ensures '.' !in Itoa(p.insert.kind) + Concat(p.insert.cols)
  {
    ConcatShape(names, p.conflict);
    ConcatShape(names, p.update.cols);
    ConcatShape(names, p.insert.cols);
    DigitsHaveNoDot(p.update.kind);
    DigitsHaveNoDot(p.insert.kind);
  }

  /** The key as Upsert writes it, from left to right. */
  method MakeUpsertKey(args: UpsertArgs) returns (key: string)
    ensures key == UpsertKey(args)
  {
    var flag := if args.updateOnConflict then "t" else "f";
    var buf := WriteNames(flag + ".", args.conflict);
    buf := WriteNames(buf + "." + Itoa(args.update.kind), args.update.cols);
    buf := WriteNames(buf + "." + Itoa(args.insert.kind), args.insert.cols);
    key := WriteNames(buf + ".", args.nzDefaults);
    var u, i := Itoa(args.update.kind), Itoa(args.insert.kind);
    Reassociate(flag + "." + Concat(args.conflict) + "." + u + Concat(args.update.cols), i, Concat(args.insert.cols),
                Concat(args.nzDefaults));
    Reassociate(flag + "." + Concat(args.conflict), u, Concat(args.update.cols),
                i + Concat(args.insert.cols) + "." + Concat(args.nzDefaults));
  }

  lemma Reassociate(a: string, b: string, c: string, d: string)
    ensures a + "." + b + c + "." + d == a + "." + (b + c + "." + d)
    ensures a + "." + b + c + "." + d == a + ("." + (b + c + "." + d))
  {
  }

  /******* The schema *******/

  const ACCESS_TOKEN_COLUMNS := {"token", "valid_until", "user_id", "created_at", "updated_at"}

  const USER_COLUMNS := {"id", "username", "password", "is_active", "scopes", "last_authenticated_at",
                         "created_at", "updated_at", "requires_confirmation"}

  /** Two letters tell the names of a table apart. */
  function FirstTwo(name: string): int
    requires |name| >= 2
  {
    name[0] as int * 1000 + name[1] as int
  }

  lemma FirstTwoSuffice(names: set<string>)
    requires forall n :: n in names ==> |n| >= 2 && !IsDigit(n[0]) && '.' !in n
    requires forall m, n :: m in names && n in names && FirstTwo(m) == FirstTwo(n) ==> m == n
    ensures ColumnNames(names)
  {
    forall m, n | m in names && n in names && m <= n ensures m == n {
      assert FirstTwo(m) == FirstTwo(n);
    }
  }

  /** The columns of access_tokens are such names; confirmation_tokens and password_reset_tokens have the same. */
  lemma AccessTokenNames()
    ensures ColumnNames(ACCESS_TOKEN_COLUMNS)
  {
    FirstTwoSuffice(ACCESS_TOKEN_COLUMNS);
  }

  /** And those of users. */
  lemma UserNames()
    ensures ColumnNames(USER_COLUMNS)
  {
    FirstTwoSuffice(USER_COLUMNS);
  }

  const PROFILE_COLUMNS := {"user_id", "legal_accepted_at", "created_at", "updated_at"}

  const REFRESH_TOKEN_COLUMNS := {"token", "user_id", "created_at", "updated_at"}

  const PUSH_TOKEN_COLUMNS := {"id", "token", "provider", "user_id", "created_at", "updated_at"}

  const AUDIT_LOG_COLUMNS := {"id", "timestamp", "event_type", "user_id", "key_id", "node_id", "session_id",
                              "operation", "result", "details", "ip_address"}

  /** The columns of keys, those before k in the alphabet and the others. */
  const EARLY_KEY_COLUMNS := {"algorithm", "curve", "chain_type", "address", "description", "created_at",
                              "deletion_date"}
  const LATE_KEY_COLUMNS := {"key_id", "public_key", "threshold", "total_nodes", "status", "tags", "updated_at"}

  const NODE_COLUMNS := {"node_id", "node_type", "endpoint", "public_key", "status", "capabilities", "metadata",
                         "registered_at", "last_heartbeat"}

  /** The columns of signing_sessions, those before s in the alphabet and the others. */
  const EARLY_SESSION_COLUMNS := {"key_id", "protocol", "participating_nodes", "current_round", "created_at",
                                  "completed_at", "duration_ms"}
  const LATE_SESSION_COLUMNS := {"session_id", "status", "threshold", "total_nodes", "total_rounds", "signature"}

  /** Names that agree in two letters may be told apart by a later one. */
  lemma LaterLetterSuffices(names: set<string>, k: nat)
    requires forall n :: n in names ==> |n| >= 2 && !IsDigit(n[0]) && '.' !in n
    requires forall m, n :: m in names && n in names && FirstTwo(m) == FirstTwo(n) ==>
      m == n || (k < |m| && k < |n| && m[k] != n[k])
    ensures ColumnNames(names)
  {
    forall m, n | m in names && n in names && m <= n ensures m == n {
      assert FirstTwo(m) == FirstTwo(n);
    }
  }

  lemma ProfileNames()
    ensures ColumnNames(PROFILE_COLUMNS)
  {
    FirstTwoSuffice(PROFILE_COLUMNS);
  }

  lemma RefreshTokenNames()
    ensures ColumnNames(REFRESH_TOKEN_COLUMNS)
  {
    FirstTwoSuffice(REFRESH_TOKEN_COLUMNS);
  }

  lemma PushTokenNames()
    ensures ColumnNames(PUSH_TOKEN_COLUMNS)
  {
    FirstTwoSuffice(PUSH_TOKEN_COLUMNS);
  }

  lemma AuditLogNames()
    ensures ColumnNames(AUDIT_LOG_COLUMNS)
  {
    FirstTwoSuffice(AUDIT_LOG_COLUMNS);
  }

  predicate Before(names: set<string>, c: char) {
    forall n :: n in names ==> n != [] && n[0] < c
  }

  predicate NotBefore(names: set<string>, c: char) {
    forall n :: n in names ==> n != [] && c <= n[0]
  }

  /** Names that begin with different letters are no prefixes of each other. */
  lemma JoinNames(early: set<string>, late: set<string>, c: char)
    requires ColumnNames(early) && ColumnNames(late) && Before(early, c) && NotBefore(late, c)
    ensures ColumnNames(early + late)
  {
    forall m, n | m in early + late && n in early + late && m <= n ensures m == n {
      assert m[0] == n[0];
    }
  }

  lemma EarlyKeyLetters()
    ensures Before(EARLY_KEY_COLUMNS, 'k')
  {
  }

  lemma EarlyKeyNames()
    ensures ColumnNames(EARLY_KEY_COLUMNS)
  {
    LaterLetterSuffices(EARLY_KEY_COLUMNS, 2);
  }

  lemma LateKeyLetters()
    ensures NotBefore(LATE_KEY_COLUMNS, 'k')
  {
  }

  lemma LateKeyNames()
    ensures ColumnNames(LATE_KEY_COLUMNS)
  {
    FirstTwoSuffice(LATE_KEY_COLUMNS);
  }

  lemma KeyNames()
    ensures ColumnNames(EARLY_KEY_COLUMNS + LATE_KEY_COLUMNS)
  {
    EarlyKeyNames();
    EarlyKeyLetters();
    LateKeyNames();
    LateKeyLetters();
    JoinNames(EARLY_KEY_COLUMNS, LATE_KEY_COLUMNS, 'k');
  }

  lemma NodeNames()
    ensures ColumnNames(NODE_COLUMNS)
  {
    LaterLetterSuffices(NODE_COLUMNS, 5);
  }

  lemma EarlySessionLetters()
    ensures Before(EARLY_SESSION_COLUMNS, 's')
  {
  }

  lemma EarlySessionNames()
    ensures ColumnNames(EARLY_SESSION_COLUMNS)
  {
    FirstTwoSuffice(EARLY_SESSION_COLUMNS);
  }

  lemma LateSessionLetters()
    ensures NotBefore(LATE_SESSION_COLUMNS, 's')
  {
  }

  lemma LateSessionNames()
    ensures ColumnNames(LATE_SESSION_COLUMNS)
  {
    LaterLetterSuffices(LATE_SESSION_COLUMNS, 6);
  }

  lemma SessionNames()
    ensures ColumnNames(EARLY_SESSION_COLUMNS + LATE_SESSION_COLUMNS)
  {
    EarlySessionNames();
    EarlySessionLetters();
    LateSessionNames();
    LateSessionLetters();
    JoinNames(EARLY_SESSION_COLUMNS, LATE_SESSION_COLUMNS, 's');
  }
}
