/** The list of target statuses kept in an autoscaler's status. */
module TargetStatuses {
  import opened Common

  /** A metric reading; which of the two fields is set depends on the scaler that wrote it. */
  datatype MetricTarget = MetricTarget(averageValueMilli: Option<int>, averageUtilization: Option<int>)

  datatype TargetStatus = TargetStatus(target: string, scaler: string, desiredReplicas: int, metric: MetricTarget)

  type Targets = seq<TargetStatus>

  // ---------------------------------------------------------------- set and get

  function Lookup(ts: Targets, name: string): Option<TargetStatus> {
    if ts == [] then None
    else if ts[0].target == name then Some(ts[0])
    else Lookup(ts[1..], name)
  }

  function Set(ts: Targets, t: TargetStatus): Targets {
    if ts == [] then [t]
    else if ts[0].target == t.target then [t] + ts[1..]
    else [ts[0]] + Set(ts[1..], t)
  }

  function SetAll(ts: Targets, updates: seq<TargetStatus>): Targets {
    if updates == [] then ts
    else Set(SetAll(ts, updates[..|updates| - 1]), updates[|updates| - 1])
  }

  method GetTargetStatus(targets: Targets, name: string) returns (found: Option<TargetStatus>)
    ensures found == Lookup(targets, name)
  {
    var i := 0;
    while i < |targets|
      invariant 0 <= i <= |targets|
      invariant Lookup(targets, name) == Lookup(targets[i..], name)
    {
      if targets[i].target == name {
        return Some(targets[i]);
      }
      i := i + 1;
    }
    return None;
  }

  method SetTargetStatus(targets: Targets, t: TargetStatus) returns (r: Targets)
    ensures r == Set(targets, t)
  {
    r := targets;
    var i := 0;
    while i < |r|
      invariant 0 <= i <= |r| && r == targets
      invariant forall k :: 0 <= k < i ==> targets[k].target != t.target
    {
      if r[i].target == t.target {
        SetOverwrites(targets, t, i);
        r := r[i := t];
        return;
      }
      i := i + 1;
    }
    SetAppends(targets, t);
    r := r + [t];
  }

  /** A set is read back, and nothing else moves. */
  lemma {:induction false} LookupAfterSet(ts: Targets, t: TargetStatus, name: string)
    ensures Lookup(Set(ts, t), name) == if name == t.target then Some(t) else Lookup(ts, name)
  {
    if ts != [] && ts[0].target != t.target {
      LookupAfterSet(ts[1..], t, name);
    }
  }

  /** A set appends where there is no entry of the name. */
  lemma {:induction false} SetAppends(ts: Targets, t: TargetStatus)
    requires forall i :: 0 <= i < |ts| ==> ts[i].target != t.target
    ensures Set(ts, t) == ts + [t]
  {
    if ts != [] {
      SetAppends(ts[1..], t);
    }
  }

  /** And overwrites the first one where it stands. */
  lemma {:induction false} SetOverwrites(ts: Targets, t: TargetStatus, i: nat)
    requires i < |ts| && ts[i].target == t.target
    requires forall k :: 0 <= k < i ==> ts[k].target != t.target
    ensures Set(ts, t) == ts[i := t]
  {
    if i > 0 {
      SetOverwrites(ts[1..], t, i - 1);
    }
  }

  lemma {:induction false} SetAllMore(ts: Targets, a: seq<TargetStatus>, b: seq<TargetStatus>)
    ensures SetAll(ts, a + b) == SetAll(SetAll(ts, a), b)
  {
    if b == [] {
      assert a + b == a;
    } else {
      assert (a + b)[..|a + b| - 1] == a + b[..|b| - 1];
      SetAllMore(ts, a, b[..|b| - 1]);
    }
  }

  /** After several sets the last one of a name is read back. */
  lemma {:induction false} LookupAfterSetAll(ts: Targets, updates: seq<TargetStatus>, name: string)
    ensures var found := Lookup(SetAll(ts, updates), name);
            || (exists k :: 0 <= k < |updates| && updates[k].target == name && found == Some(updates[k])
                            && forall j :: k < j < |updates| ==> updates[j].target != name)
            || (found == Lookup(ts, name) && forall k :: 0 <= k < |updates| ==> updates[k].target != name)
  {
    if updates != [] {
      var front, last := updates[..|updates| - 1], updates[|updates| - 1];
      LookupAfterSetAll(ts, front, name);
      LookupAfterSet(SetAll(ts, front), last, name);
      assert forall k :: 0 <= k < |front| ==> front[k] == updates[k];
      if last.target == name {
        assert updates[|updates| - 1] == last;
      } else if k :| 0 <= k < |front| && front[k].target == name && Lookup(SetAll(ts, front), name) == Some(front[k])
                     && forall j :: k < j < |front| ==> front[j].target != name {
        assert updates[k] == front[k];
      }
    }
  }

  // ---------------------------------------------------------------- purge

  function Occurrences(names: seq<string>, name: string): nat {
    if names == [] then 0
    else Occurrences(names[..|names| - 1], name) + if names[|names| - 1] == name then 1 else 0
  }

  /** How many entries carry the name. */
  function Count(ts: Targets, name: string): nat {
    if ts == [] then 0
    else Count(ts[..|ts| - 1], name) + if ts[|ts| - 1].target == name then 1 else 0
  }

  function Copies(t: TargetStatus, n: nat): Targets {
    if n == 0 then [] else Copies(t, n - 1) + [t]
  }

  function Purge(managed: seq<string>, ts: Targets): Targets {
    if ts == [] then []
    else
      var t := ts[|ts| - 1];
      Purge(managed, ts[..|ts| - 1]) + Copies(t, Occurrences(managed, t.target))
  }

  method PurgeTargetStatus(managed: seq<string>, targets: Targets) returns (r: Targets)
    ensures r == Purge(managed, targets)
  {
    r := [];
    for i := 0 to |targets|
      invariant r == Purge(managed, targets[..i])
    {
      ghost var before := r;
      for j := 0 to |managed|
        invariant r == before + Copies(targets[i], Occurrences(managed[..j], targets[i].target))
      {
        assert managed[..j + 1][..j] == managed[..j];
        if targets[i].target == managed[j] {
          r := r + [targets[i]];
        }
      }
      assert managed[..|managed|] == managed;
      assert targets[..i + 1][..i] == targets[..i];
    }
    assert targets[..|targets|] == targets;
  }

  lemma {:induction false} CountAppend(a: Targets, b: Targets, name: string)
    ensures Count(a + b, name) == Count(a, name) + Count(b, name)
  {
    if b == [] {
      assert a + b == a;
    } else {
      assert (a + b)[..|a + b| - 1] == a + b[..|b| - 1];
      CountAppend(a, b[..|b| - 1], name);
    }
  }

  lemma {:induction false} CountCopies(t: TargetStatus, n: nat, name: string)
    ensures Count(Copies(t, n), name) == if t.target == name then n else 0
  {
    if n > 0 {
      CountCopies(t, n - 1, name);
      assert Copies(t, n)[..|Copies(t, n)| - 1] == Copies(t, n - 1);
    }
  }

  /** Purging multiplies each name's entries by the name's occurrences in the managed list. */
  lemma {:induction false} PurgeMultiplies(managed: seq<string>, ts: Targets, name: string)
    ensures Count(Purge(managed, ts), name) == Count(ts, name) * Occurrences(managed, name)
  {
    if ts != [] {
      var front, t := ts[..|ts| - 1], ts[|ts| - 1];
      PurgeMultiplies(managed, front, name);
      CountAppend(Purge(managed, front), Copies(t, Occurrences(managed, t.target)), name);
      CountCopies(t, Occurrences(managed, t.target), name);
      Multiplied(Count(front, name), Occurrences(managed, name), Count(Purge(managed, front), name), t.target == name);
    }
  }

  lemma Multiplied(count: nat, times: nat, product: nat, oneMore: bool)
    requires product == count * times
    ensures product + (if oneMore then times else 0) == (count + if oneMore then 1 else 0) * times
  {
  }

  lemma {:induction false} LookupAppend(a: Targets, b: Targets, name: string)
    ensures Lookup(a + b, name) == if Lookup(a, name).Some? then Lookup(a, name) else Lookup(b, name)
  {
    if a == [] {
      assert a + b == b;
    } else {
      assert (a + b)[1..] == a[1..] + b;
      LookupAppend(a[1..], b, name);
    }
  }

  lemma {:induction false} LookupCopies(t: TargetStatus, n: nat, name: string)
    ensures Lookup(Copies(t, n), name) == if n > 0 && t.target == name then Some(t) else None
  {
    if n > 0 {
      LookupCopies(t, n - 1, name);
      LookupAppend(Copies(t, n - 1), [t], name);
    }
  }

  /** A purge changes no lookup of a managed name, and answers none for any other. */
  lemma {:induction false} LookupAfterPurge(managed: seq<string>, ts: Targets, name: string)
    ensures Lookup(Purge(managed, ts), name) == if name in managed then Lookup(ts, name) else None
  {
    if ts != [] {
      var front, t := ts[..|ts| - 1], ts[|ts| - 1];
      LookupAfterPurge(managed, front, name);
      OccursIffIn(managed, t.target);
      LookupAppend(Purge(managed, front), Copies(t, Occurrences(managed, t.target)), name);
      LookupCopies(t, Occurrences(managed, t.target), name);
      assert ts == front + [t];
      LookupAppend(front, [t], name);
    }
  }

  ghost predicate UniqueNames(ts: Targets) {
    forall name :: Count(ts, name) <= 1
  }

  /** No name of the list is managed more than once. */
  ghost predicate ManagedAtMostOnce(managed: seq<string>, ts: Targets) {
    forall name :: Count(ts, name) == 1 ==> Occurrences(managed, name) <= 1
  }

  /** Among uniquely named entries, a purge keeps names unique exactly when no kept name is managed twice. */
  lemma {:induction false} PurgeKeepsUniqueIff(managed: seq<string>, ts: Targets)
    requires UniqueNames(ts)
    ensures UniqueNames(Purge(managed, ts)) <==> ManagedAtMostOnce(managed, ts)
  {
    if UniqueNames(Purge(managed, ts)) {
      forall name | Count(ts, name) == 1 ensures Occurrences(managed, name) <= 1 {
        PurgeMultiplies(managed, ts, name);
        assert Count(Purge(managed, ts), name) <= 1;
      }
    }
    if ManagedAtMostOnce(managed, ts) {
      forall name ensures Count(Purge(managed, ts), name) <= 1 {
        PurgeMultiplies(managed, ts, name);
        assert Count(ts, name) <= 1;
      }
    }
  }

  function Filter(managed: seq<string>, ts: Targets): Targets {
    if ts == [] then []
    else
      var front, t := Filter(managed, ts[..|ts| - 1]), ts[|ts| - 1];
      if t.target in managed then front + [t] else front
  }

  /** With no name managed twice, a purge is the order-preserving filter it is meant to be. */
  lemma {:induction false} PurgeIsFilter(managed: seq<string>, ts: Targets)
    requires forall name :: Occurrences(managed, name) <= 1
    ensures Purge(managed, ts) == Filter(managed, ts)
  {
    if ts != [] {
      var t := ts[|ts| - 1];
      PurgeIsFilter(managed, ts[..|ts| - 1]);
      OccursIffIn(managed, t.target);
      assert Copies(t, 1) == Copies(t, 0) + [t] == [t];
    }
  }

  lemma {:induction false} OccursIffIn(names: seq<string>, name: string)
    ensures Occurrences(names, name) > 0 <==> name in names
  {
    if names != [] {
      OccursIffIn(names[..|names| - 1], name);
      assert names == names[..|names| - 1] + [names[|names| - 1]];
    }
  }

  // ---------------------------------------------------------------- whole runs

  datatype Op = SetOp(status: TargetStatus) | PurgeOp(managed: seq<string>)

  function RunOps(ts: Targets, ops: seq<Op>): Targets {
    if ops == [] then ts
    else
      var before := RunOps(ts, ops[..|ops| - 1]);
      match ops[|ops| - 1]
      case SetOp(t) => Set(before, t)
      case PurgeOp(managed) => Purge(managed, before)
  }

  lemma {:induction false} CountFromFront(ts: Targets, name: string)
    requires ts != []
    ensures Count(ts, name) == Count(ts[1..], name) + if ts[0].target == name then 1 else 0
  {
    assert ts == [ts[0]] + ts[1..];
    CountAppend([ts[0]], ts[1..], name);
    assert Count([ts[0]], name) == (if ts[0].target == name then 1 else 0) by {
      assert [ts[0]][..0] == [];
    }
  }

  lemma {:induction false} CountAfterSet(ts: Targets, t: TargetStatus, name: string)
    ensures Count(Set(ts, t), name)
            == if name == t.target then Max(1, Count(ts, name)) else Count(ts, name)
  {
    var r := Set(ts, t);
    CountFromFront(r, name);
    if ts == [] {
      assert r[1..] == [];
    } else {
      CountFromFront(ts, name);
      if ts[0].target != t.target {
        assert r[1..] == Set(ts[1..], t);
        CountAfterSet(ts[1..], t, name);
      } else {
        assert r[1..] == ts[1..];
      }
    }
  }

  /** Names stay unique over every run of sets and purges whose managed lists repeat no name. */
  lemma {:induction false} RunKeepsUnique(ts: Targets, ops: seq<Op>)
    requires UniqueNames(ts)
    requires forall i, name :: 0 <= i < |ops| && ops[i].PurgeOp? ==> Occurrences(ops[i].managed, name) <= 1
    ensures UniqueNames(RunOps(ts, ops))
    decreases |ops|
  {
    if ops != [] {
      var before := RunOps(ts, ops[..|ops| - 1]);
      RunKeepsUnique(ts, ops[..|ops| - 1]);
      match ops[|ops| - 1]
      case SetOp(t) =>
        forall name ensures Count(Set(before, t), name) <= 1 {
          CountAfterSet(before, t, name);
        }
      case PurgeOp(managed) =>
        PurgeKeepsUniqueIff(managed, before);
    }
  }

  function Pow(b: nat, e: nat): nat {
    if e == 0 then 1 else b * Pow(b, e - 1)
  }

  /** A name managed m times has its entries multiplied by m at every purge: m^k after k of them. */
  lemma {:induction false} RepeatedPurgeGrows(ts: Targets, managed: seq<string>, k: nat, name: string)
    ensures Count(RunOps(ts, seq(k, _ => PurgeOp(managed))), name)
            == Count(ts, name) * Pow(Occurrences(managed, name), k)
    decreases k
  {
    var ops := seq(k, _ => PurgeOp(managed));
    if k > 0 {
      var fewer := seq(k - 1, _ => PurgeOp(managed));
      assert ops[..k - 1] == fewer;
      RepeatedPurgeGrows(ts, managed, k - 1, name);
      PurgeMultiplies(managed, RunOps(ts, fewer), name);
      Regroup(Count(ts, name), Pow(Occurrences(managed, name), k - 1), Occurrences(managed, name));
    }
  }

  lemma Regroup(a: nat, b: nat, c: nat)
    ensures (a * b) * c == a * (c * b)
  {
  }
}
