/**
  The layout ratchet: judging measured sizes against hard limits and a recorded baseline,
  tightening the baseline, and comparing baselines across revisions.
 */
module LayoutRatchet {
  import opened Common
  import opened LayoutKeys
  import LayoutScan

  const FOLDER_LIMIT := 7
  const FILE_LIMIT := 1000

  function Limit(kind: Kind): int {
    if kind.Dir? then FOLDER_LIMIT else FILE_LIMIT
  }

  function KeysOf(kind: Kind, m: map<string, nat>): set<Key> {
    set p | p in m :: Key(kind, p)
  }

  function Measured(report: LayoutScan.Sizes): Entries {
    (map k: Key | k in KeysOf(Dir, report.dirs) :: report.dirs[k.path])
    + (map k: Key | k in KeysOf(File, report.files) :: report.files[k.path])
  }

  // ---- what is allowed ----

  /** The size an entry may have: its hard limit, or more if more was recorded. */
  function Allowed(baseline: Entries, key: Key): int {
    if key in baseline && baseline[key] > Limit(key.kind) then baseline[key] else Limit(key.kind)
  }

  predicate Faulty(measured: Entries, baseline: Entries, key: Key) {
    key in measured && measured[key] > Allowed(baseline, key)
  }

  /** A recorded entry that fits and could be tightened or dropped. */
  predicate Loose(measured: Entries, baseline: Entries, key: Key) {
    && key in measured && key in baseline && !Faulty(measured, baseline, key)
    && !(measured[key] == baseline[key] > Limit(key.kind))
  }

  predicate Clean(measured: Entries, baseline: Entries) {
    forall key :: key in measured ==> !Faulty(measured, baseline, key)
  }

  // ---- evaluation ----

  datatype Violation = Violation(key: Key, measured: int, limit: int, baselined: bool)

  datatype Hint = Hint(key: Key, measured: int, baselineValue: int, withinLimit: bool)

  datatype Evaluation = Evaluation(violations: seq<Violation>, hints: seq<Hint>, baselinedOk: nat)

  predicate TrueViolation(measured: Entries, baseline: Entries, v: Violation) {
    && v.key in measured && v.measured == measured[v.key]
    && v.limit == Allowed(baseline, v.key) && v.baselined == (v.key in baseline)
  }

  predicate TrueHint(measured: Entries, baseline: Entries, h: Hint) {
    && h.key in measured && h.measured == measured[h.key]
    && h.key in baseline && h.baselineValue == baseline[h.key]
    && h.withinLimit == (measured[h.key] <= Limit(h.key.kind))
  }

  /** In ascending order: one violation for each faulty key of `done`. */
  ghost predicate ListsFaults(vs: seq<Violation>, done: set<Key>, measured: Entries, baseline: Entries) {
    Lists(vs, (v: Violation) => v.key, done, (k: Key) => Faulty(measured, baseline, k), (v: Violation) => TrueViolation(measured, baseline, v))
  }

  /** In ascending order: one hint for each loose key of `done`. */
  ghost predicate ListsHints(hs: seq<Hint>, done: set<Key>, measured: Entries, baseline: Entries) {
    Lists(hs, (h: Hint) => h.key, done, (k: Key) => Loose(measured, baseline, k), (h: Hint) => TrueHint(measured, baseline, h))
  }

  function AcceptedIn(done: set<Key>, measured: Entries, baseline: Entries): set<Key> {
    set key | key in done && key in baseline && key in measured && !Faulty(measured, baseline, key)
  }

  /** Violations and hints as above, and the number of recorded keys that fit. */
  ghost predicate Judges(ev: Evaluation, done: set<Key>, measured: Entries, baseline: Entries) {
    && ListsFaults(ev.violations, done, measured, baseline)
    && ListsHints(ev.hints, done, measured, baseline)
    && ev.baselinedOk == |AcceptedIn(done, measured, baseline)|
  }

  lemma FaultNext(vs: seq<Violation>, done: set<Key>, key: Key, measured: Entries, baseline: Entries)
    requires key in measured && (forall k :: k in done ==> KeyLess(k, key)) && ListsFaults(vs, done, measured, baseline)
    ensures Faulty(measured, baseline, key) ==>
              ListsFaults(vs + [Violation(key, measured[key], Allowed(baseline, key), key in baseline)], done + {key}, measured, baseline)
    ensures !Faulty(measured, baseline, key) ==> ListsFaults(vs, done + {key}, measured, baseline)
  {
    var of, wanted := (v: Violation) => v.key, (k: Key) => Faulty(measured, baseline, k);
    var good := (v: Violation) => TrueViolation(measured, baseline, v);
    hide Lists, KeyLess, Faulty, Allowed;
    if Faulty(measured, baseline, key) {
      ListsNext(vs, of, done, wanted, good, Violation(key, measured[key], Allowed(baseline, key), key in baseline));
    } else {
      ListsSkip(vs, of, done, wanted, good, key);
    }
  }

  lemma HintNext(hs: seq<Hint>, done: set<Key>, key: Key, measured: Entries, baseline: Entries)
    requires key in measured && (forall k :: k in done ==> KeyLess(k, key)) && ListsHints(hs, done, measured, baseline)
    ensures Loose(measured, baseline, key) ==>
              ListsHints(hs + [Hint(key, measured[key], baseline[key], measured[key] <= Limit(key.kind))], done + {key}, measured, baseline)
    ensures !Loose(measured, baseline, key) ==> ListsHints(hs, done + {key}, measured, baseline)
  {
    var of, wanted := (h: Hint) => h.key, (k: Key) => Loose(measured, baseline, k);
    var good := (h: Hint) => TrueHint(measured, baseline, h);
    hide Lists, KeyLess, Faulty, Limit;
    if Loose(measured, baseline, key) {
      ListsNext(hs, of, done, wanted, good, Hint(key, measured[key], baseline[key], measured[key] <= Limit(key.kind)));
    } else {
      ListsSkip(hs, of, done, wanted, good, key);
    }
  }

  lemma AcceptedNext(done: set<Key>, key: Key, measured: Entries, baseline: Entries)
    requires key in measured && key !in done
    ensures |AcceptedIn(done + {key}, measured, baseline)|
         == |AcceptedIn(done, measured, baseline)| + (if key in baseline && !Faulty(measured, baseline, key) then 1 else 0)
  {
    var now := AcceptedIn(done, measured, baseline);
    if key in baseline && !Faulty(measured, baseline, key) {
      assert AcceptedIn(done + {key}, measured, baseline) == now + {key};
    } else {
      assert AcceptedIn(done + {key}, measured, baseline) == now;
    }
  }

  /** One entry, branch by branch. */
  method JudgeOne(ev: Evaluation, ghost done: set<Key>, key: Key, measured: Entries, baseline: Entries) returns (r: Evaluation)
    requires key in measured && key !in done && (forall k :: k in done ==> KeyLess(k, key))
    requires Judges(ev, done, measured, baseline)
    ensures Judges(r, done + {key}, measured, baseline)
  {
    hide ListsFaults, ListsHints, AcceptedIn, KeyLess;
    FaultNext(ev.violations, done, key, measured, baseline);
    HintNext(ev.hints, done, key, measured, baseline);
    AcceptedNext(done, key, measured, baseline);
    r := ev;
    var n, hard := measured[key], Limit(key.kind);
    if n > hard {
      if key !in baseline || baseline[key] < n {
        var limit := if key in baseline && baseline[key] >= hard then baseline[key] else hard;
        r := r.(violations := r.violations + [Violation(key, n, limit, key in baseline)]);
      } else {
        if n < baseline[key] {
          r := r.(hints := r.hints + [Hint(key, n, baseline[key], false)]);
        }
        r := r.(baselinedOk := r.baselinedOk + 1);
      }
    } else if key in baseline {
      r := r.(hints := r.hints + [Hint(key, n, baseline[key], true)], baselinedOk := r.baselinedOk + 1);
    }
  }

  /** Directories, then files, each sorted. */
  method Evaluate(report: LayoutScan.Sizes, baseline: Entries) returns (ev: Evaluation)
    ensures Judges(ev, Measured(report).Keys, Measured(report), baseline)
  {
    hide Judges, Measured, KeysOf, KeyLess;
    var measured := Measured(report);
    ev := Evaluation([], [], 0);
    JudgesNothing(measured, baseline);
    var dirs, files := KeysOf(Dir, report.dirs), KeysOf(File, report.files);
    MeasuredKeys(report);
    ev := EvaluateKind(ev, {}, dirs, measured, baseline);
    assert {} + dirs == dirs;
    ev := EvaluateKind(ev, dirs, files, measured, baseline);
  }

  /** The measured keys: all directories before all files. */
  lemma MeasuredKeys(report: LayoutScan.Sizes)
    ensures var dirs, files := KeysOf(Dir, report.dirs), KeysOf(File, report.files);
            Measured(report).Keys == dirs + files && files !! dirs && forall d, f :: d in dirs && f in files ==> KeyLess(d, f)
  {
  }

  method EvaluateKind(before: Evaluation, ghost done: set<Key>, keys: set<Key>, measured: Entries, baseline: Entries)
    returns (ev: Evaluation)
    requires Judges(before, done, measured, baseline) && keys <= measured.Keys && keys !! done
    requires forall d, k :: d in done && k in keys ==> KeyLess(d, k)
    ensures Judges(ev, done + keys, measured, baseline)
  {
    hide Judges, KeyLess;
    ev := before;
    var order := SortedKeys(keys);
    assert done + Elements(order[..0]) == done;
    for i := 0 to |order|
      invariant Judges(ev, done + Elements(order[..i]), measured, baseline)
    {
      PrefixElements(order, i);
      assert order[i] in Elements(order);
      ev := JudgeOne(ev, done + Elements(order[..i]), order[i], measured, baseline);
      assert done + Elements(order[..i]) + {order[i]} == done + Elements(order[..i + 1]);
    }
    assert order[..|order|] == order;
  }

  lemma JudgesNothing(measured: Entries, baseline: Entries)
    ensures Judges(Evaluation([], [], 0), {}, measured, baseline)
  {
  }

  /** No violations are reported exactly when every measured size is allowed. */
  lemma CleanIffNoViolations(ev: Evaluation, measured: Entries, baseline: Entries)
    requires Judges(ev, measured.Keys, measured, baseline)
    ensures ev.violations == [] <==> Clean(measured, baseline)
    ensures ev.hints == [] <==> forall key :: !Loose(measured, baseline, key)
  {
    hide Lists;
    var faulty, loose := (k: Key) => Faulty(measured, baseline, k), (k: Key) => Loose(measured, baseline, k);
    ListsEmpty(ev.violations, (v: Violation) => v.key, measured.Keys, faulty, (v: Violation) => TrueViolation(measured, baseline, v));
    ListsEmpty(ev.hints, (h: Hint) => h.key, measured.Keys, loose, (h: Hint) => TrueHint(measured, baseline, h));
    assert forall k :: k in measured.Keys ==> (faulty(k) <==> Faulty(measured, baseline, k));
    assert forall k :: k in measured.Keys ==> (loose(k) <==> Loose(measured, baseline, k));
  }

  // ---- tightening the baseline ----

  datatype Line =
    | RemovedUnmeasured(key: Key)
    | RemovedWithin(key: Key)
    | Lowered(key: Key, value: int)
    | NotRaised(key: Key)
    | NotAdded(key: Key)

  /** The tightest baseline that neither adds nor raises an entry. */
  function Tightened(measured: Entries, baseline: Entries): Entries {
    map key | key in baseline && key in measured && measured[key] > Limit(key.kind) ::
      if measured[key] < baseline[key] then measured[key] else baseline[key]
  }

  /** A recorded entry the update has something to say about: it changes, or it is faulty. */
  predicate Remarkable(measured: Entries, baseline: Entries, key: Key) {
    var next := Tightened(measured, baseline);
    key in baseline && (key !in next || next[key] != baseline[key] || Faulty(measured, baseline, key))
  }

  /** What the line says is what happened. */
  predicate TrueLine(measured: Entries, baseline: Entries, line: Line) {
    var next := Tightened(measured, baseline);
    match line
    case RemovedUnmeasured(key) => key !in next && key !in measured
    case RemovedWithin(key) => key !in next && key in measured
    case Lowered(key, value) => key in next && next[key] == value && key in baseline && value < baseline[key]
    case NotRaised(key) => key in next && key in baseline && next[key] == baseline[key] && Faulty(measured, baseline, key)
    case NotAdded(key) => key !in baseline && Faulty(measured, baseline, key)
  }

  ghost predicate ListsChanges(log: seq<Line>, done: set<Key>, measured: Entries, baseline: Entries) {
    Lists(log, (l: Line) => l.key, done, (k: Key) => Remarkable(measured, baseline, k),
          (l: Line) => TrueLine(measured, baseline, l) && !l.NotAdded?)
  }

  /** A fault nobody recorded. */
  predicate NewFault(measured: Entries, baseline: Entries, key: Key) {
    key !in baseline && Faulty(measured, baseline, key)
  }

  ghost predicate ListsNewFaults(log: seq<Line>, done: set<Key>, measured: Entries, baseline: Entries) {
    Lists(log, (l: Line) => l.key, done, (k: Key) => NewFault(measured, baseline, k), (l: Line) => l.NotAdded?)
  }

  /** The recorded part of the update, over the keys in `done`. */
  ghost predicate UpdatedOver(done: set<Key>, next: Entries, log: seq<Line>, blocking: bool, measured: Entries, baseline: Entries)
    requires done <= baseline.Keys
  {
    && (forall key :: key in next <==> key in baseline && (key in done ==> key in Tightened(measured, baseline)))
    && (forall key :: key in next ==> next[key] == if key in done then Tightened(measured, baseline)[key] else baseline[key])
    && (blocking <==> exists key :: key in done && Faulty(measured, baseline, key))
    && ListsChanges(log, done, measured, baseline)
  }

  lemma ChangeNext(log: seq<Line>, done: set<Key>, key: Key, line: Line, measured: Entries, baseline: Entries)
    requires ListsChanges(log, done, measured, baseline) && (forall k :: k in done ==> KeyLess(k, key))
    ensures Remarkable(measured, baseline, key) && line.key == key && TrueLine(measured, baseline, line) && !line.NotAdded? ==>
              ListsChanges(log + [line], done + {key}, measured, baseline)
    ensures !Remarkable(measured, baseline, key) ==> ListsChanges(log, done + {key}, measured, baseline)
  {
    hide Lists, KeyLess, Remarkable, TrueLine;
    var of, wanted := (l: Line) => l.key, (k: Key) => Remarkable(measured, baseline, k);
    var good := (l: Line) => TrueLine(measured, baseline, l) && !l.NotAdded?;
    if !Remarkable(measured, baseline, key) {
      ListsSkip(log, of, done, wanted, good, key);
    } else if line.key == key && TrueLine(measured, baseline, line) && !line.NotAdded? {
      ListsNext(log, of, done, wanted, good, line);
    }
  }

  method UpdateOne(key: Key, measured: Entries, baseline: Entries, ghost done: set<Key>, next: Entries, log: seq<Line>, blocking: bool)
    returns (next': Entries, log': seq<Line>, blocking': bool)
    requires done <= baseline.Keys && key in baseline && key !in done && forall k :: k in done ==> KeyLess(k, key)
    requires UpdatedOver(done, next, log, blocking, measured, baseline)
    ensures UpdatedOver(done + {key}, next', log', blocking', measured, baseline)
  {
    hide ListsChanges, KeyLess;
    var base, limit := baseline[key], Limit(key.kind);
    next', log', blocking' := next, log, blocking;
    ghost var line := NotRaised(key);
    if key !in measured {
      next' := next - {key};
      line := RemovedUnmeasured(key);
      log' := log + [RemovedUnmeasured(key)];
    } else if measured[key] <= limit {
      next' := next - {key};
      line := RemovedWithin(key);
      log' := log + [RemovedWithin(key)];
    } else if measured[key] < base {
      next' := next[key := measured[key]];
      line := Lowered(key, measured[key]);
      log' := log + [Lowered(key, measured[key])];
    } else if measured[key] > base {
      log' := log + [NotRaised(key)];
      blocking' := true;
    }
    ChangeNext(log, done, key, line, measured, baseline);
    assert blocking' <==> blocking || Faulty(measured, baseline, key);
  }

  /** Recorded entries first, then new faults, each sorted. */
  method UpdateEntries(report: LayoutScan.Sizes, baseline: Entries) returns (next: Entries, log: seq<Line>, blocking: bool)
    ensures next == Tightened(Measured(report), baseline)
    ensures blocking <==> !Clean(Measured(report), next)
    ensures exists n :: 0 <= n <= |log|
              && ListsChanges(log[..n], baseline.Keys, Measured(report), baseline)
              && ListsNewFaults(log[n..], Measured(report).Keys, Measured(report), baseline)
  {
    hide Faulty, Measured, KeyLess, ListsChanges, ListsNewFaults;
    var measured := Measured(report);
    next, log, blocking := baseline, [], false;
    ChangesNothing(measured, baseline);
    var order := SortedKeys(baseline.Keys);
    assert Elements(order[..0]) == {};
    for i := 0 to |order|
      invariant Elements(order[..i]) <= baseline.Keys
      invariant UpdatedOver(Elements(order[..i]), next, log, blocking, measured, baseline)
    {
      PrefixElements(order, i);
      assert order[i] in Elements(order);
      next, log, blocking := UpdateOne(order[i], measured, baseline, Elements(order[..i]), next, log, blocking);
    }
    assert order[..|order|] == order;
    assert next == Tightened(measured, baseline);
    var n := |log|;
    var more, blocked := BlockNew(measured, baseline, blocking);
    log, blocking := log + more, blocked;
    assert log[n..] == more;
    UpdateKeepsFaults(measured, baseline);
    CleanMeansFaultless(measured, next);
  }

  lemma ChangesNothing(measured: Entries, baseline: Entries)
    ensures ListsChanges([], {}, measured, baseline) && ListsNewFaults([], {}, measured, baseline)
  {
  }

  lemma CleanMeansFaultless(measured: Entries, baseline: Entries)
    ensures Clean(measured, baseline) <==> forall key :: !Faulty(measured, baseline, key)
  {
  }

  lemma NewFaultNext(log: seq<Line>, done: set<Key>, key: Key, measured: Entries, baseline: Entries)
    requires ListsNewFaults(log, done, measured, baseline) && (forall k :: k in done ==> KeyLess(k, key))
    ensures if NewFault(measured, baseline, key) then ListsNewFaults(log + [NotAdded(key)], done + {key}, measured, baseline)
            else ListsNewFaults(log, done + {key}, measured, baseline)
  {
    hide Lists, KeyLess, NewFault;
    var of, wanted := (l: Line) => l.key, (k: Key) => NewFault(measured, baseline, k);
    if NewFault(measured, baseline, key) {
      ListsNext(log, of, done, wanted, (l: Line) => l.NotAdded?, NotAdded(key));
    } else {
      ListsSkip(log, of, done, wanted, (l: Line) => l.NotAdded?, key);
    }
  }

  method BlockNew(measured: Entries, baseline: Entries, blocked: bool) returns (log: seq<Line>, blocking: bool)
    requires blocked <==> exists key :: key in baseline && Faulty(measured, baseline, key)
    ensures blocking <==> exists key :: Faulty(measured, baseline, key)
    ensures ListsNewFaults(log, measured.Keys, measured, baseline)
  {
    hide KeyLess, ListsNewFaults;
    log, blocking := [], blocked;
    ChangesNothing(measured, baseline);
    var order := SortedKeys(measured.Keys);
    assert Elements(order[..0]) == {};
    for i := 0 to |order|
      invariant ListsNewFaults(log, Elements(order[..i]), measured, baseline)
      invariant blocking <==> exists key :: (key in baseline || key in Elements(order[..i])) && Faulty(measured, baseline, key)
    {
      var key := order[i];
      PrefixElements(order, i);
      assert key in Elements(order);
      NewFaultNext(log, Elements(order[..i]), key, measured, baseline);
      if key !in baseline && measured[key] > Limit(key.kind) {
        log, blocking := log + [NotAdded(key)], true;
        assert Faulty(measured, baseline, key);
      }
    }
    assert order[..|order|] == order;
    assert forall key :: Faulty(measured, baseline, key) ==> key in measured.Keys;
  }

  // ---- comparing baselines of two revisions ----

  datatype Finding = New(key: Key, headN: int) | Grew(key: Key, baseN: int, headN: int)

  /** New or larger at head. */
  predicate Regressed(base: Entries, head: Entries, key: Key) {
    key in head && (key !in base || head[key] > base[key])
  }

  predicate TrueFinding(base: Entries, head: Entries, f: Finding) {
    && f.key in head && f.headN == head[f.key]
    && (f.New? <==> f.key !in base)
    && (f.Grew? ==> f.baseN == base[f.key] < f.headN)
  }

  /** In ascending order: one finding for each regressed key of `done`. */
  ghost predicate ListsRegressions(fs: seq<Finding>, done: set<Key>, base: Entries, head: Entries) {
    Lists(fs, (f: Finding) => f.key, done, (k: Key) => Regressed(base, head, k), (f: Finding) => TrueFinding(base, head, f))
  }

  lemma FindingNext(fs: seq<Finding>, done: set<Key>, key: Key, f: Finding, base: Entries, head: Entries)
    requires ListsRegressions(fs, done, base, head) && (forall k :: k in done ==> KeyLess(k, key))
    ensures Regressed(base, head, key) && f.key == key && TrueFinding(base, head, f) ==>
              ListsRegressions(fs + [f], done + {key}, base, head)
    ensures !Regressed(base, head, key) ==> ListsRegressions(fs, done + {key}, base, head)
  {
    hide Lists, KeyLess, Regressed, TrueFinding;
    var of, wanted := (g: Finding) => g.key, (k: Key) => Regressed(base, head, k);
    var good := (g: Finding) => TrueFinding(base, head, g);
    if !Regressed(base, head, key) {
      ListsSkip(fs, of, done, wanted, good, key);
    } else if f.key == key && TrueFinding(base, head, f) {
      ListsNext(fs, of, done, wanted, good, f);
    }
  }

  method Compare(base: Entries, head: Entries) returns (findings: seq<Finding>)
    ensures ListsRegressions(findings, head.Keys, base, head)
  {
    findings := [];
    assert ListsRegressions([], {}, base, head);
    hide ListsRegressions, KeyLess;
    var order := SortedKeys(head.Keys);
    assert Elements(order[..0]) == {};
    for i := 0 to |order|
      invariant ListsRegressions(findings, Elements(order[..i]), base, head)
    {
      var key := order[i];
      PrefixElements(order, i);
      assert key in Elements(order);
      if key !in base {
        FindingNext(findings, Elements(order[..i]), key, New(key, head[key]), base, head);
        findings := findings + [New(key, head[key])];
      } else if head[key] > base[key] {
        FindingNext(findings, Elements(order[..i]), key, Grew(key, base[key], head[key]), base, head);
        findings := findings + [Grew(key, base[key], head[key])];
      } else {
        FindingNext(findings, Elements(order[..i]), key, New(key, head[key]), base, head);
      }
    }
    assert order[..|order|] == order;
  }

  /** Head records nothing new and nothing larger. */
  predicate Within(base: Entries, head: Entries) {
    forall key :: key in head ==> key in base && head[key] <= base[key]
  }

  lemma NoFindingsIffWithin(findings: seq<Finding>, base: Entries, head: Entries)
    requires ListsRegressions(findings, head.Keys, base, head)
    ensures findings == [] <==> Within(base, head)
  {
    hide Lists;
    var wanted := (k: Key) => Regressed(base, head, k);
    ListsEmpty(findings, (f: Finding) => f.key, head.Keys, wanted, (f: Finding) => TrueFinding(base, head, f));
    assert forall k :: k in head.Keys ==> (wanted(k) <==> Regressed(base, head, k));
  }

  function Recorded(baseline: Option<Entries>): Entries {
    if baseline.Some? then baseline.value else map[]
  }

  /** The revision check with its missing-file rules: nothing at head passes, nothing at base is empty. */
  method CheckMonotonic(base: Option<Entries>, head: Option<Entries>) returns (ok: bool)
    ensures ok <==> Within(Recorded(base), Recorded(head))
  {
    if head.None? {
      return true;
    }
    var entries := if base.None? then map[] else base.value;
    var findings := Compare(entries, head.value);
    NoFindingsIffWithin(findings, entries, head.value);
    ok := findings == [];
  }

  // ---- the ratchet only tightens ----

  /** Tightening keeps every fault and invents none. */
  lemma UpdateKeepsFaults(measured: Entries, baseline: Entries)
    ensures forall key :: Faulty(measured, baseline, key) <==> Faulty(measured, Tightened(measured, baseline), key)
  {
  }

  /** An update passes the revision check, repeating it changes nothing, and no hint is left. */
  lemma UpdateIsFixpoint(measured: Entries, baseline: Entries)
    ensures var next := Tightened(measured, baseline);
            && Within(baseline, next)
            && Tightened(measured, next) == next
            && (forall key :: !Loose(measured, next, key))
  {
  }

  /** A hint is given for exactly the measured entries an update would change. */
  lemma HintMeansChange(measured: Entries, baseline: Entries, key: Key)
    requires key in measured
    ensures var next := Tightened(measured, baseline);
            Loose(measured, baseline, key) <==> key in baseline && (key !in next || next[key] != baseline[key])
  {
  }

  /** Among the baselines an update may write, it writes the smallest that reports no new fault. */
  lemma UpdateIsTightest(measured: Entries, baseline: Entries, other: Entries)
    requires forall key :: key in measured && key in baseline && !Faulty(measured, baseline, key) ==> !Faulty(measured, other, key)
    requires forall key :: key in baseline && Faulty(measured, baseline, key) ==> key in other && baseline[key] <= other[key]
    ensures Within(other, Tightened(measured, baseline))
  {
    var next := Tightened(measured, baseline);
    forall key | key in next ensures key in other && next[key] <= other[key] {
      if !Faulty(measured, baseline, key) {
        assert !Faulty(measured, other, key);
      }
    }
  }

  // ---- whole histories ----

  datatype Revision = Revision(baseline: Option<Entries>, measured: Entries)

  /** Every revision passes the layout check, and every step passes the revision check. */
  predicate PassingHistory(revisions: seq<Revision>) {
    && (forall i :: 0 <= i < |revisions| ==> Clean(revisions[i].measured, Recorded(revisions[i].baseline)))
    && (forall i :: 0 < i < |revisions| ==> Within(Recorded(revisions[i - 1].baseline), Recorded(revisions[i].baseline)))
  }

  /** What is ever recorded was recorded first, at least as large. */
  lemma {:induction false} FirstRecordBounds(revisions: seq<Revision>, i: nat, j: nat, key: Key)
    requires PassingHistory(revisions) && i <= j < |revisions|
    requires key in Recorded(revisions[j].baseline)
    ensures key in Recorded(revisions[i].baseline)
    ensures Recorded(revisions[j].baseline)[key] <= Recorded(revisions[i].baseline)[key]
    decreases j - i
  {
    if i < j {
      assert Within(Recorded(revisions[j - 1].baseline), Recorded(revisions[j].baseline));
      FirstRecordBounds(revisions, i, j - 1, key);
    }
  }

  /** Over any passing history a size never exceeds its hard limit or the value recorded for it first. */
  lemma WholeHistoryRatchet(revisions: seq<Revision>, i: nat, key: Key)
    requires PassingHistory(revisions) && i < |revisions| && key in revisions[i].measured
    ensures revisions[i].measured[key] <= Allowed(Recorded(revisions[0].baseline), key)
  {
    assert Clean(revisions[i].measured, Recorded(revisions[i].baseline));
    if key in Recorded(revisions[i].baseline) {
      FirstRecordBounds(revisions, 0, i, key);
    }
  }

  /** Once the baseline is missing, nothing can be recorded again. */
  lemma MissingStaysEmpty(revisions: seq<Revision>, i: nat, j: nat)
    requires PassingHistory(revisions) && i <= j < |revisions| && revisions[i].baseline.None?
    ensures Recorded(revisions[j].baseline) == map[]
  {
    forall key | key in Recorded(revisions[j].baseline) ensures false {
      FirstRecordBounds(revisions, i, j, key);
    }
  }
}
