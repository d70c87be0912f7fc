/**
 Group commit: writers queue up, the one in front logs a batch for a prefix of the queue, and
 all of them are answered together (db/db_impl.cc, Write and BuildBatchGroup).  A step is what
 happens under the mutex, or the leader's work while the mutex is released.
 */
module GroupCommit {
  import opened Coding
  import opened WriteBatch

  /** A queued write; a null batch only forces a memtable switch. */
  datatype Write = Write(batch: Option<seq<Op>>, size: nat, sync: bool)

  datatype Answer = Fine | Failed

  /** One log record: the first sequence number, the writers whose batches it holds, in order. */
  datatype Record = Record(first: nat, members: seq<nat>, ops: seq<Op>, applied: bool)

  /** The answer a writer got, and the record its batch is in. */
  datatype Result = Result(answer: Answer, record: Option<nat>)

  datatype Phase =
    | Idle
    | Leading(count: nat)
    | Written(count: nat, answer: Answer, record: Option<nat>, syncError: bool)

  datatype State = State(arrived: seq<Write>, results: seq<Result>, phase: Phase, lastSequence: nat,
                         log: seq<Record>, synced: nat, mem: seq<Numbered>, broken: bool)

  function Queue(s: State): seq<Write>
    requires |s.results| <= |s.arrived|
  {
    s.arrived[|s.results|..]
  }

  // ---- The group ----

  const SMALL: nat := 0x2_0000
  const LARGE: nat := 0x10_0000

  function MaxSize(first: nat): nat {
    if first <= SMALL then first + SMALL else LARGE
  }

  /** How far the group reaches: up to a sync write a non-sync leader must not take, or the size limit. */
  function GroupEnd(q: seq<Write>, i: nat, size: nat, max: nat, sync: bool): (n: nat)
    requires i <= |q|
    ensures i <= n <= |q|
    decreases |q| - i
  {
    if i == |q| || (q[i].sync && !sync) then i
    else if q[i].batch.None? then GroupEnd(q, i + 1, size, max, sync)
    else if size + q[i].size > max then i
    else GroupEnd(q, i + 1, size + q[i].size, max, sync)
  }

  function GroupCount(q: seq<Write>): (n: nat)
    requires q != []
    ensures 0 < n <= |q|
  {
    GroupEnd(q, 1, q[0].size, MaxSize(q[0].size), q[0].sync)
  }

  function GroupOps(q: seq<Write>): seq<Op> {
    if q == [] then []
    else
      var w := q[|q| - 1];
      GroupOps(q[..|q| - 1]) + if w.batch.Some? then w.batch.value else []
  }

  lemma FirstOps(q: seq<Write>)
    requires q != [] && q[0].batch.Some?
    ensures GroupOps(q[..1]) == q[0].batch.value
  {
    assert q[..1][..0] == [];
  }

  lemma MoreOps(q: seq<Write>, n: nat)
    requires n < |q|
    ensures GroupOps(q[..n + 1]) == GroupOps(q[..n]) + if q[n].batch.Some? then q[n].batch.value else []
  {
    assert q[..n + 1][..n] == q[..n];
  }

  lemma EndStep(q: seq<Write>, i: nat, size: nat, max: nat, sync: bool)
    requires i <= |q|
    ensures GroupEnd(q, i, size, max, sync) ==
            if i == |q| || (q[i].sync && !sync) then i
            else if q[i].batch.None? then GroupEnd(q, i + 1, size, max, sync)
            else if size + q[i].size > max then i
            else GroupEnd(q, i + 1, size + q[i].size, max, sync)
  {
  }

  /** The numbers of the writers with a batch, counted from `base`. */
  function GroupMembers(q: seq<Write>, base: nat): seq<nat> {
    if q == [] then []
    else GroupMembers(q[..|q| - 1], base) + if q[|q| - 1].batch.Some? then [base + |q| - 1] else []
  }

  lemma {:induction false} MembersRange(q: seq<Write>, base: nat)
    ensures forall m :: m in GroupMembers(q, base) <==> base <= m < base + |q| && q[m - base].batch.Some?
    ensures StrictlyAscending(GroupMembers(q, base))
  {
    if q != [] {
      MembersRange(q[..|q| - 1], base);
      var ids := GroupMembers(q[..|q| - 1], base);
      assert forall k :: 0 <= k < |ids| ==> ids[k] in ids;
    }
  }

  /** No sync write rides with a leader that will not sync. */
  lemma {:induction false} GroupSyncs(q: seq<Write>, i: nat, size: nat, max: nat, sync: bool)
    requires i <= |q|
    ensures forall j :: i <= j < GroupEnd(q, i, size, max, sync) && q[j].sync ==> sync
    decreases |q| - i
  {
    if i < |q| && !(q[i].sync && !sync) {
      if q[i].batch.None? {
        GroupSyncs(q, i + 1, size, max, sync);
      } else if size + q[i].size <= max {
        GroupSyncs(q, i + 1, size + q[i].size, max, sync);
      }
    }
  }

  ghost predicate StrictlyAscending(ids: seq<nat>) {
    forall i, j :: 0 <= i < j < |ids| ==> ids[i] < ids[j]
  }

  // ---- Steps ----

  datatype Step =
    | Arrive(w: Write)
    | TurnAway(answer: Answer)
    | Lead
    | WriteLog(appended: bool, logFine: bool, syncFine: bool)
    | Finish

  ghost function NewRecord(s: State, applied: bool): Record
    requires s.phase.Leading? && s.phase.count <= |s.arrived| - |s.results|
  {
    var group := Queue(s)[..s.phase.count];
    Record(s.lastSequence + 1, GroupMembers(group, |s.results|), GroupOps(group), applied)
  }

  ghost predicate Next(s: State, step: Step, s': State) {
    && |s.results| <= |s.arrived|
    && match step
       case Arrive(w) => s' == s.(arrived := s.arrived + [w])
       case TurnAway(answer) =>
         // the front writer is answered alone: no room could be made, or it had no batch
         && s.phase == Idle && Queue(s) != [] && (s.broken ==> answer == Failed)
         && (answer == Fine ==> Queue(s)[0].batch.None?)
         && s' == s.(results := s.results + [Result(answer, None)])
       case Lead =>
         && s.phase == Idle && Queue(s) != [] && Queue(s)[0].batch.Some? && !s.broken
         && s' == s.(phase := Leading(GroupCount(Queue(s))))
       case WriteLog(appended, logFine, syncFine) =>
         && s.phase.Leading? && s.phase.count <= |s.arrived| - |s.results| && Queue(s) != []
         && s' == Logged(s, appended, logFine, syncFine)
       case Finish =>
         && s.phase.Written? && s.phase.count <= |s.arrived| - |s.results|
         && s' == s.(
              phase := Idle,
              lastSequence := s.lastSequence + |GroupOps(Queue(s)[..s.phase.count])|,
              results := s.results + Answers(Queue(s)[..s.phase.count], s.phase),
              broken := s.broken || s.phase.syncError)
  }

  /** Append the record, sync if the leader asks for it, then apply to the memtable. */
  ghost function Logged(s: State, appended: bool, logFine: bool, syncFine: bool): State
    requires |s.results| <= |s.arrived| && s.phase.Leading? && s.phase.count <= |s.arrived| - |s.results| && Queue(s) != []
  {
    var count, sync := s.phase.count, Queue(s)[0].sync;
    if !logFine then
      // whether a failed append left a whole record behind is not known
      s.(phase := Written(count, Failed, None, false), log := if appended then s.log + [NewRecord(s, false)] else s.log)
    else if sync && !syncFine then
      s.(phase := Written(count, Failed, None, true), log := s.log + [NewRecord(s, false)])
    else
      s.(phase := Written(count, Fine, Some(|s.log|), false),
         log := s.log + [NewRecord(s, true)],
         synced := if sync then |s.log| + 1 else s.synced,
         mem := s.mem + Number(NewRecord(s, true).ops, s.lastSequence + 1))
  }

  ghost function Answers(group: seq<Write>, phase: Phase): (r: seq<Result>)
    requires phase.Written?
    ensures |r| == |group|
    ensures forall i :: 0 <= i < |r| ==> r[i] == Result(phase.answer, if group[i].batch.Some? then phase.record else None)
  {
    seq(|group|, i requires 0 <= i < |group| => Result(phase.answer, if group[i].batch.Some? then phase.record else None))
  }

  // ---- The invariant ----

  /** Writers who may already have a record: answered, or in the group just written. */
  function Reached(s: State): nat {
    |s.results| + if s.phase.Written? then s.phase.count else 0
  }

  /** Sequence numbers that may be in the log: assigned, or those of the group just written. */
  ghost function Assigned(s: State): nat
    requires GroupOk(s)
  {
    s.lastSequence + if s.phase.Written? then |GroupOps(Queue(s)[..s.phase.count])| else 0
  }

  ghost predicate GroupOk(s: State) {
    && |s.results| <= |s.arrived|
    && (s.phase != Idle ==>
          && 0 < s.phase.count <= |s.arrived| - |s.results|
          && (forall j :: 0 <= j < s.phase.count && Queue(s)[j].sync ==> Queue(s)[0].sync))
  }

  /** A record's writers follow every writer of the records before it, its numbers likewise. */
  ghost predicate Follows(a: Record, b: Record) {
    && (forall m, n :: m in a.members && n in b.members ==> m < n)
    && a.first + |a.ops| <= b.first
  }

  ghost predicate LogOk(s: State)
    requires GroupOk(s)
  {
    && (forall i, j :: 0 <= i < j < |s.log| ==> Follows(s.log[i], s.log[j]))
    && (forall i :: 0 <= i < |s.log| ==>
          && StrictlyAscending(s.log[i].members) && 0 < s.log[i].first
          && s.log[i].first + |s.log[i].ops| <= Assigned(s) + 1
          && forall m :: m in s.log[i].members ==> m < Reached(s))
    && s.synced <= |s.log|
  }

  /** An accepted batch is in a record that was applied, and synced if that was asked for. */
  ghost predicate Kept(s: State, w: nat, record: Option<nat>)
    requires w < |s.arrived|
  {
    && record.Some? && record.value < |s.log| && s.log[record.value].applied && w in s.log[record.value].members
    && (s.arrived[w].sync ==> record.value < s.synced)
  }

  ghost predicate ResultsOk(s: State)
    requires GroupOk(s)
  {
    && (forall i :: 0 <= i < |s.results| && s.results[i].answer == Fine && s.arrived[i].batch.Some? ==>
          Kept(s, i, s.results[i].record))
    && (s.phase.Written? && s.phase.answer == Fine ==>
          forall i :: |s.results| <= i < Reached(s) && s.arrived[i].batch.Some? ==> Kept(s, i, s.phase.record))
  }

  ghost function AppliedOps(log: seq<Record>): seq<Numbered> {
    if log == [] then []
    else
      var r := log[|log| - 1];
      AppliedOps(log[..|log| - 1]) + if r.applied then Number(r.ops, r.first) else []
  }

  ghost predicate AllBatches(arrived: seq<Write>, members: seq<nat>) {
    forall k :: 0 <= k < |members| ==> members[k] < |arrived| && arrived[members[k]].batch.Some?
  }

  /** The batches these writers brought, one after the other. */
  ghost function Batches(arrived: seq<Write>, members: seq<nat>): seq<Op>
    requires AllBatches(arrived, members)
  {
    if members == [] then []
    else Batches(arrived, members[..|members| - 1]) + arrived[members[|members| - 1]].batch.value
  }

  /** A record holds what its writers brought, whole and in order. */
  ghost predicate HoldsBatches(arrived: seq<Write>, r: Record) {
    AllBatches(arrived, r.members) && r.ops == Batches(arrived, r.members)
  }

  ghost predicate OpsOk(s: State) {
    forall i :: 0 <= i < |s.log| ==> HoldsBatches(s.arrived, s.log[i])
  }

  ghost predicate ProtocolOk(s: State) {
    GroupOk(s) && LogOk(s) && ResultsOk(s) && s.mem == AppliedOps(s.log)
  }

  ghost predicate Inv(s: State) {
    ProtocolOk(s) && OpsOk(s)
  }

  lemma {:induction false} MoreArrive(arrived: seq<Write>, more: seq<Write>, members: seq<nat>)
    requires AllBatches(arrived, members)
    ensures AllBatches(arrived + more, members) && Batches(arrived + more, members) == Batches(arrived, members)
  {
    if members != [] {
      MoreArrive(arrived, more, members[..|members| - 1]);
    }
  }

  lemma BatchesMore(arrived: seq<Write>, members: seq<nat>, m: nat)
    requires AllBatches(arrived, members) && m < |arrived|
    ensures arrived[m].batch.Some? ==>
              && AllBatches(arrived, members + [m])
              && Batches(arrived, members + [m]) == Batches(arrived, members) + arrived[m].batch.value
  {
    assert (members + [m])[..|members|] == members;
  }

  /** The group's batch is what its members brought. */
  lemma {:induction false} GroupHolds(arrived: seq<Write>, q: seq<Write>, base: nat)
    requires base + |q| <= |arrived| && forall i :: 0 <= i < |q| ==> q[i] == arrived[base + i]
    ensures AllBatches(arrived, GroupMembers(q, base)) && GroupOps(q) == Batches(arrived, GroupMembers(q, base))
  {
    if q != [] {
      var n := |q| - 1;
      GroupHolds(arrived, q[..n], base);
      BatchesMore(arrived, GroupMembers(q[..n], base), base + n);
      GroupSplits(q, base);
      hide Batches, GroupMembers, GroupOps, AllBatches;
    }
  }

  lemma GroupSplits(q: seq<Write>, base: nat)
    requires q != []
    ensures
      var n, front := |q|, q[..|q| - 1];
      if q[n - 1].batch.Some? then
        && GroupOps(q) == GroupOps(front) + q[n - 1].batch.value
        && GroupMembers(q, base) == GroupMembers(front, base) + [base + n - 1]
      else GroupOps(q) == GroupOps(front) && GroupMembers(q, base) == GroupMembers(front, base)
  {
  }

  /** A step that only lets writers arrive, or logs the group, keeps every record whole. */
  lemma OpsKept(s: State, s': State)
    requires OpsOk(s) && s.arrived <= s'.arrived
    requires s'.log == s.log
             || (GroupOk(s) && s.phase.Leading? && exists applied :: s'.log == s.log + [NewRecord(s, applied)])
    ensures OpsOk(s')
  {
    var more := s'.arrived[|s.arrived|..];
    assert s'.arrived == s.arrived + more;
    forall i | 0 <= i < |s'.log|
      ensures HoldsBatches(s'.arrived, s'.log[i])
    {
      if i < |s.log| {
        assert HoldsBatches(s.arrived, s.log[i]);
        MoreArrive(s.arrived, more, s.log[i].members);
      } else {
        NewHolds(s);
        MoreArrive(s.arrived, more, NewRecord(s, true).members);
      }
    }
  }

  lemma NewHolds(s: State)
    requires GroupOk(s) && s.phase.Leading?
    ensures HoldsBatches(s.arrived, NewRecord(s, true)) && HoldsBatches(s.arrived, NewRecord(s, false))
  {
    GroupHolds(s.arrived, Queue(s)[..s.phase.count], |s.results|);
  }

  /** A member's batch is a contiguous piece of what the record holds. */
  lemma {:induction false} PieceOf(arrived: seq<Write>, members: seq<nat>, k: nat) returns (off: nat)
    requires AllBatches(arrived, members) && k < |members|
    ensures
      var b, all := arrived[members[k]].batch.value, Batches(arrived, members);
      off + |b| <= |all| && all[off..off + |b|] == b
  {
    var n := |members| - 1;
    if k == n {
      off := |Batches(arrived, members[..n])|;
    } else {
      off := PieceOf(arrived, members[..n], k);
      var b, front := arrived[members[k]].batch.value, Batches(arrived, members[..n]);
      assert (front + arrived[members[n]].batch.value)[off..off + |b|] == front[off..off + |b|];
    }
  }

  /** An applied record's updates are a contiguous piece of the memtable. */
  lemma {:induction false} AppliedPiece(log: seq<Record>, i: nat) returns (at: nat)
    requires i < |log| && log[i].applied
    ensures at + |log[i].ops| <= |AppliedOps(log)|
    ensures AppliedOps(log)[at..at + |log[i].ops|] == Number(log[i].ops, log[i].first)
  {
    var n := |log| - 1;
    if i == n {
      at := |AppliedOps(log[..n])|;
    } else {
      at := AppliedPiece(log[..n], i);
      var m, front := |log[i].ops|, AppliedOps(log[..n]);
      var r := log[n];
      assert (front + if r.applied then Number(r.ops, r.first) else [])[at..at + m] == front[at..at + m];
    }
  }

  ghost predicate PieceAt(b: seq<Op>, ops: seq<Op>, off: nat) {
    off + |b| <= |ops| && ops[off..off + |b|] == b
  }

  ghost predicate NumberedAt(b: seq<Op>, first: nat, off: nat, mem: seq<Numbered>, at: nat) {
    at + |b| <= |mem| && forall j :: 0 <= j < |b| ==> mem[at + j] == Numbered(first + off + j, b[j])
  }

  /** The batch of a writer stands whole in a record and, under the record's numbers, in the memtable. */
  ghost predicate StandsIn(b: seq<Op>, r: Record, mem: seq<Numbered>) {
    exists off: nat, at: nat :: PieceAt(b, r.ops, off) && NumberedAt(b, r.first, off, mem, at)
  }

  lemma PieceIsNumbered(b: seq<Op>, ops: seq<Op>, off: nat, first: nat, mem: seq<Numbered>, start: nat)
    requires PieceAt(b, ops, off)
    requires start + |ops| <= |mem| && mem[start..start + |ops|] == Number(ops, first)
    ensures NumberedAt(b, first, off, mem, start + off)
  {
    forall j | 0 <= j < |b|
      ensures mem[start + off + j] == Numbered(first + off + j, b[j])
    {
      assert mem[start + off + j] == mem[start..start + |ops|][off + j];
      assert b[j] == ops[off..off + |b|][j];
    }
  }

  lemma KeptStands(s: State, w: nat, i: nat)
    requires OpsOk(s) && s.mem == AppliedOps(s.log) && w < |s.arrived| && Kept(s, w, Some(i))
    ensures s.arrived[w].batch.Some? && StandsIn(s.arrived[w].batch.value, s.log[i], s.mem)
  {
    hide AppliedOps, Batches, Number;
    var r := s.log[i];
    assert HoldsBatches(s.arrived, r);
    var k: nat :| k < |r.members| && r.members[k] == w;
    var off := PieceOf(s.arrived, r.members, k);
    var start := AppliedPiece(s.log, i);
    var b := s.arrived[w].batch.value;
    assert PieceAt(b, r.ops, off);
    PieceIsNumbered(b, r.ops, off, r.first, s.mem, start);
  }

  lemma GroupMembersOf(s: State)
    requires GroupOk(s) && s.phase.Leading?
    ensures
      var r := NewRecord(s, true);
      && StrictlyAscending(r.members)
      && forall m :: m in r.members <==> |s.results| <= m < |s.results| + s.phase.count && s.arrived[m].batch.Some?
  {
    var group := Queue(s)[..s.phase.count];
    MembersRange(group, |s.results|);
    assert forall m :: |s.results| <= m < |s.results| + s.phase.count ==> group[m - |s.results|] == s.arrived[m];
  }

  lemma LeadKeepsProtocol(s: State, s': State)
    requires ProtocolOk(s) && Next(s, Lead, s')
    ensures ProtocolOk(s')
  {
    var q := Queue(s);
    GroupSyncs(q, 1, q[0].size, MaxSize(q[0].size), q[0].sync);
  }

  lemma ArriveKeepsProtocol(s: State, w: Write, s': State)
    requires ProtocolOk(s) && Next(s, Arrive(w), s')
    ensures ProtocolOk(s')
  {
    assert forall j :: 0 <= j < |Queue(s)| ==> Queue(s')[j] == Queue(s)[j];
    if s.phase != Idle {
      assert Queue(s')[..s.phase.count] == Queue(s)[..s.phase.count];
    }
    forall i, record | 0 <= i < |s.arrived| && Kept(s, i, record)
      ensures Kept(s', i, record)
    {
    }
  }

  lemma TurnAwayKeepsProtocol(s: State, answer: Answer, s': State)
    requires ProtocolOk(s) && Next(s, TurnAway(answer), s')
    ensures ProtocolOk(s')
  {
    forall i, record | 0 <= i < |s.arrived| && Kept(s, i, record)
      ensures Kept(s', i, record)
    {
    }
  }

  lemma WriteLogKeepsProtocol(s: State, appended: bool, logFine: bool, syncFine: bool, s': State)
    requires ProtocolOk(s) && Next(s, WriteLog(appended, logFine, syncFine), s')
    ensures ProtocolOk(s')
  {
    LogGrows(s, s');
    GroupIsKept(s, s');
    MemIsLog(s, s');
  }

  lemma MemIsLog(s: State, s': State)
    requires s.phase.Leading? && GroupOk(s) && s.mem == AppliedOps(s.log)
    requires exists appended, logFine, syncFine :: s' == Logged(s, appended, logFine, syncFine)
    ensures s'.mem == AppliedOps(s'.log)
  {
    hide AppliedOps, GroupOps, GroupMembers, Number;
    AppliedMore(s.log, NewRecord(s, true));
    AppliedMore(s.log, NewRecord(s, false));
  }

  lemma AppliedMore(log: seq<Record>, r: Record)
    ensures AppliedOps(log + [r]) == AppliedOps(log) + if r.applied then Number(r.ops, r.first) else []
  {
    assert (log + [r])[..|log|] == log;
  }

  lemma GroupIsKept(s: State, s': State)
    requires GroupOk(s) && GroupOk(s') && ResultsOk(s) && s.phase.Leading? && s.synced <= |s.log|
    requires exists appended, logFine, syncFine :: s' == Logged(s, appended, logFine, syncFine)
    ensures ResultsOk(s')
  {
    GroupMembersOf(s);
    forall i, record | 0 <= i < |s.arrived| && Kept(s, i, record)
      ensures Kept(s', i, record)
    {
    }
    forall i | |s.results| <= i < Reached(s') && s.arrived[i].batch.Some? && s'.phase.answer == Fine
      ensures Kept(s', i, s'.phase.record)
    {
      assert Queue(s)[i - |s.results|] == s.arrived[i];
      assert s'.log[|s.log|] == NewRecord(s, true);
      assert i in NewRecord(s, true).members;
    }
  }

  /** The new record follows the old ones and stays within what is assigned. */
  lemma LogGrows(s: State, s': State)
    requires ProtocolOk(s) && s.phase.Leading? && s'.phase.Written? && s'.phase.count == s.phase.count
    requires s'.arrived == s.arrived && s'.results == s.results && s'.lastSequence == s.lastSequence
    requires s'.log == s.log || exists applied :: s'.log == s.log + [NewRecord(s, applied)]
    requires s'.synced <= |s'.log|
    ensures GroupOk(s') && LogOk(s')
  {
    GroupMembersOf(s);
    assert Queue(s') == Queue(s);
    forall i | |s.log| <= i < |s'.log|
      ensures s'.log[i].members == NewRecord(s, true).members && s'.log[i].ops == NewRecord(s, true).ops
      ensures s'.log[i].first == s.lastSequence + 1
    {
    }
    forall i, j | 0 <= i < j < |s'.log|
      ensures Follows(s'.log[i], s'.log[j])
    {
      assert s'.log[i] == s.log[i];
      if j < |s.log| {
        assert s'.log[j] == s.log[j];
      }
    }
  }

  lemma FinishKeepsProtocol(s: State, s': State)
    requires ProtocolOk(s) && Next(s, Finish, s')
    ensures ProtocolOk(s')
  {
    var group := Queue(s)[..s.phase.count];
    forall i, record | 0 <= i < |s.arrived| && Kept(s, i, record)
      ensures Kept(s', i, record)
    {
    }
    forall i | 0 <= i < |s'.results| && s'.results[i].answer == Fine && s'.arrived[i].batch.Some?
      ensures Kept(s', i, s'.results[i].record)
    {
      if i >= |s.results| {
        assert group[i - |s.results|] == s.arrived[i];
      }
    }
  }

  lemma NextKeepsOps(s: State, step: Step, s': State)
    requires ProtocolOk(s) && OpsOk(s) && Next(s, step, s')
    ensures OpsOk(s')
  {
    hide OpsOk, LogOk, ResultsOk, AppliedOps, Answers, NewRecord;
    OpsKept(s, s');
  }

  lemma NextKeepsInv(s: State, step: Step, s': State)
    requires Inv(s) && Next(s, step, s')
    ensures Inv(s') && s.lastSequence <= s'.lastSequence && s.results <= s'.results && s.log <= s'.log && s.synced <= s'.synced
  {
    NextKeepsOps(s, step, s');
    hide OpsOk;
    match step
    case Arrive(w) => ArriveKeepsProtocol(s, w, s');
    case TurnAway(answer) => TurnAwayKeepsProtocol(s, answer, s');
    case Lead => LeadKeepsProtocol(s, s');
    case WriteLog(appended, logFine, syncFine) => WriteLogKeepsProtocol(s, appended, logFine, syncFine, s');
    case Finish => FinishKeepsProtocol(s, s');
  }

  // ---- Whole runs ----

  const START: State := State([], [], Idle, 0, [], 0, [], false)

  ghost predicate Execution(states: seq<State>, steps: seq<Step>) {
    && |states| == |steps| + 1 && states[0] == START
    && forall i :: 0 <= i < |steps| ==> Next(states[i], steps[i], states[i + 1])
  }

  lemma {:induction false} RunKeepsInv(states: seq<State>, steps: seq<Step>, n: nat)
    requires Execution(states, steps) && n < |states|
    ensures Inv(states[n])
  {
    if n > 0 {
      RunKeepsInv(states, steps, n - 1);
      NextKeepsInv(states[n - 1], steps[n - 1], states[n]);
    }
  }

  /** In every run no writer's batch is logged twice, and batches are logged in queue order. */
  lemma LoggedOnceInOrder(states: seq<State>, steps: seq<Step>, n: nat, i: nat, j: nat, a: nat, b: nat)
    requires Execution(states, steps) && n < |states|
    requires i < |states[n].log| && j < |states[n].log|
    requires a < |states[n].log[i].members| && b < |states[n].log[j].members|
    ensures (i < j || (i == j && a < b)) <==> states[n].log[i].members[a] < states[n].log[j].members[b]
  {
    RunKeepsInv(states, steps, n);
    var log := states[n].log;
    assert log[i].members[a] in log[i].members && log[j].members[b] in log[j].members;
    assert i < j ==> Follows(log[i], log[j]);
    assert j < i ==> Follows(log[j], log[i]);
    assert i == j ==> StrictlyAscending(log[i].members);
  }

  /** In every run each logged update has a sequence number of its own, ascending along the log. */
  lemma NumberedOnce(states: seq<State>, steps: seq<Step>, n: nat, i: nat, j: nat, a: nat, b: nat)
    requires Execution(states, steps) && n < |states|
    requires i < |states[n].log| && j < |states[n].log|
    requires a < |states[n].log[i].ops| && b < |states[n].log[j].ops|
    ensures (i < j || (i == j && a < b)) <==> states[n].log[i].first + a < states[n].log[j].first + b
  {
    RunKeepsInv(states, steps, n);
    var log := states[n].log;
    assert i < j ==> Follows(log[i], log[j]);
    assert j < i ==> Follows(log[j], log[i]);
  }

  /**
   In every run a write answered with success has its whole batch in an applied record, synced if it
   asked for that, and in the memtable under the record's sequence numbers.
   */
  lemma AcceptedIsKept(states: seq<State>, steps: seq<Step>, n: nat, w: nat)
    requires Execution(states, steps) && n < |states|
    requires w < |states[n].results| && states[n].results[w].answer == Fine
    ensures w < |states[n].arrived|
    ensures states[n].arrived[w].batch.Some? ==>
              var record := states[n].results[w].record;
              && Kept(states[n], w, record)
              && StandsIn(states[n].arrived[w].batch.value, states[n].log[record.value], states[n].mem)
  {
    RunKeepsInv(states, steps, n);
    var s := states[n];
    if s.arrived[w].batch.Some? {
      assert Kept(s, w, s.results[w].record);
      KeptStands(s, w, s.results[w].record.value);
    }
  }

  /** Nothing that happens later changes an answer, takes back a sequence number or unsyncs a record. */
  lemma {:induction false} NothingTakenBack(states: seq<State>, steps: seq<Step>, m: nat, n: nat)
    requires Execution(states, steps) && m <= n < |states|
    ensures states[m].results <= states[n].results && states[m].log <= states[n].log
    ensures states[m].lastSequence <= states[n].lastSequence && states[m].synced <= states[n].synced
    decreases n
  {
    hide Inv, Next;
    if m < n {
      NothingTakenBack(states, steps, m, n - 1);
      RunKeepsInv(states, steps, n - 1);
      NextKeepsInv(states[n - 1], steps[n - 1], states[n]);
    }
  }

  /**
   Logging and answering a group: all of it succeeds if the record was appended and, where the leader
   asked for it, synced; else all of it fails, nothing is applied, and a failed sync closes the store.
   */
  lemma GroupIsAnswered(s: State, appended: bool, logFine: bool, syncFine: bool, s1: State, s2: State)
    requires Next(s, WriteLog(appended, logFine, syncFine), s1) && Next(s1, Finish, s2)
    ensures
      var good := logFine && (Queue(s)[0].sync ==> syncFine);
      && |s2.results| == |s.results| + s.phase.count
      && (forall w :: |s.results| <= w < |s2.results| ==> (s2.results[w].answer == Fine <==> good))
      && (!good ==> s2.mem == s.mem && s2.synced == s.synced)
      && (s2.broken <==> s.broken || (logFine && !good))
  {
    hide GroupOps, NewRecord, Number;
  }

  /** A closed store has no group at work. */
  lemma {:induction false} BrokenIsIdle(states: seq<State>, steps: seq<Step>, n: nat)
    requires Execution(states, steps) && n < |states|
    ensures states[n].broken ==> states[n].phase == Idle
  {
    if n > 0 {
      BrokenIsIdle(states, steps, n - 1);
      assert Next(states[n - 1], steps[n - 1], states[n]);
      hide GroupOps, NewRecord, Number, Answers, GroupCount;
    }
  }

  /** After a failed sync every later write fails and nothing more is logged or applied. */
  lemma {:induction false} BrokenStays(states: seq<State>, steps: seq<Step>, m: nat, n: nat)
    requires Execution(states, steps) && m <= n < |states| && states[m].broken
    ensures states[n].broken && states[n].log == states[m].log && states[n].mem == states[m].mem
    ensures |states[m].results| <= |states[n].results|
    ensures forall w :: |states[m].results| <= w < |states[n].results| ==> states[n].results[w].answer == Failed
    decreases n
  {
    if m < n {
      BrokenStays(states, steps, m, n - 1);
      BrokenIsIdle(states, steps, n - 1);
      assert Next(states[n - 1], steps[n - 1], states[n]);
      hide GroupOps, NewRecord, Number, Answers, GroupCount, Logged;
    }
  }

  // ---- What the group is ----

  ghost function TotalSize(q: seq<Write>): nat {
    if q == [] then 0
    else TotalSize(q[..|q| - 1]) + if q[|q| - 1].batch.Some? then q[|q| - 1].size else 0
  }

  /** The front writer may take the `j`th along: it does not ask for more syncing, and it fits. */
  ghost predicate MayTake(q: seq<Write>, j: nat)
    requires j < |q|
  {
    && (q[j].sync ==> q[0].sync)
    && (q[j].batch.Some? ==> TotalSize(q[..j + 1]) <= MaxSize(q[0].size))
  }

  lemma SizesAdd(q: seq<Write>, i: nat)
    requires i < |q|
    ensures TotalSize(q[..i + 1]) == TotalSize(q[..i]) + if q[i].batch.Some? then q[i].size else 0
  {
    assert q[..i + 1][..i] == q[..i];
  }

  lemma {:induction false} GroupScan(q: seq<Write>, i: nat)
    requires 1 <= i <= |q|
    ensures
      var n := GroupEnd(q, i, TotalSize(q[..i]), MaxSize(q[0].size), q[0].sync);
      (forall j :: i <= j < n ==> MayTake(q, j)) && (n < |q| ==> !MayTake(q, n))
    decreases |q| - i
  {
    if i < |q| {
      SizesAdd(q, i);
      GroupScan(q, i + 1);
    }
  }

  /** The group is the largest prefix of the queue the front writer may take along. */
  lemma GroupIsLargest(q: seq<Write>, n: nat)
    requires q != [] && q[0].batch.Some? && 0 < n <= |q|
    ensures n <= GroupCount(q) <==> forall j :: 1 <= j < n ==> MayTake(q, j)
  {
    assert q[..1][..0] == [];
    assert TotalSize(q[..1]) == q[0].size;
    GroupScan(q, 1);
  }

  lemma FinishIs(s: State, s': State)
    requires |s.results| <= |s.arrived| && s.phase.Written? && s.phase.count <= |Queue(s)|
    requires
      var group := Queue(s)[..s.phase.count];
      s' == s.(phase := Idle, lastSequence := s.lastSequence + |GroupOps(group)|,
               results := s.results + Answers(group, s.phase), broken := s.broken || s.phase.syncError)
    ensures Next(s, Finish, s')
    ensures |s'.results| <= |s'.arrived| && Queue(s') == Queue(s)[s.phase.count..]
  {
  }

  lemma CountFits(s: State)
    requires Inv(s) && s.phase != Idle
    ensures |s.results| <= |s.arrived| && 0 < s.phase.count <= |Queue(s)|
  {
  }

  // ---- The writer queue ----

  class WriterQueue {
    var writers: seq<Write>
    var phase: Phase
    var pending: seq<Op>
    var lastSequence: nat
    var log: seq<Record>
    var synced: nat
    var mem: seq<Numbered>
    var broken: bool
    var results: seq<Result>
    ghost var arrived: seq<Write>

    ghost function View(): State
      reads this
    {
      State(arrived, results, phase, lastSequence, log, synced, mem, broken)
    }

    ghost predicate Valid()
      reads this
    {
      && Inv(View()) && writers == Queue(View())
      && (phase != Idle ==> pending == GroupOps(writers[..phase.count]))
    }

    constructor ()
      ensures Valid() && View() == START
    {
      writers, phase, pending, lastSequence, log, synced := [], Idle, [], 0, [], 0;
      mem, broken, results, arrived := [], false, [], [];
    }

    method Enqueue(w: Write)
      requires Valid()
      modifies this
      ensures Valid() && Next(old(View()), Arrive(w), View())
    {
      ghost var was := View();
      writers, arrived := writers + [w], arrived + [w];
      NextKeepsInv(was, Arrive(w), View());
      if phase != Idle {
        assert writers[..phase.count] == Queue(was)[..phase.count];
      }
    }

    /** The batch for as many waiting writers as one record may take. */
    method BuildBatchGroup() returns (count: nat, result: seq<Op>)
      requires Valid() && writers != [] && writers[0].batch.Some?
      ensures count == GroupCount(writers) && result == GroupOps(writers[..count])
    {
      hide Inv, GroupOps, GroupEnd;
      var first := writers[0];
      var size: nat := first.size;
      var maxSize: nat := 0x10_0000;
      if size <= 0x2_0000 {
        maxSize := size + 0x2_0000;
      }
      count, result := 1, first.batch.value;
      FirstOps(writers);
      while count < |writers|
        invariant 0 < count <= |writers| && result == GroupOps(writers[..count])
        invariant GroupCount(writers) == GroupEnd(writers, count, size, maxSize, first.sync)
      {
        var w := writers[count];
        EndStep(writers, count, size, maxSize, first.sync);
        if w.sync && !first.sync {
          return;
        }
        MoreOps(writers, count);
        if w.batch.Some? {
          if size + w.size > maxSize {
            return;
          }
          size := size + w.size;
          result := result + w.batch.value;
        }
        count := count + 1;
      }
      EndStep(writers, count, size, maxSize, first.sync);
    }

    /** The front writer's turn: no room, nothing to write, or a group to log. */
    method TakeTurn(roomMade: bool)
      requires Valid() && phase == Idle && writers != [] && (broken ==> !roomMade)
      modifies this
      ensures Valid()
      ensures
        var step := if roomMade && old(writers)[0].batch.Some? then Lead else TurnAway(if roomMade then Fine else Failed);
        Next(old(View()), step, View())
    {
      ghost var was := View();
      if roomMade && writers[0].batch.Some? {
        var count, ops := BuildBatchGroup();
        phase, pending := Leading(count), ops;
        NextKeepsInv(was, Lead, View());
      } else {
        var answer := if roomMade then Fine else Failed;
        results, writers := results + [Result(answer, None)], writers[1..];
        NextKeepsInv(was, TurnAway(answer), View());
      }
    }

    /** The leader's work without the mutex: log, sync if it must, then apply. */
    method LogGroup(appended: bool, logFine: bool, syncFine: bool)
      requires Valid() && phase.Leading?
      modifies this
      ensures Valid() && Next(old(View()), WriteLog(appended, logFine, syncFine), View())
    {
      hide Inv, GroupOps, GroupMembers, Number, Logged, NewRecord;
      CountFits(View());
      ghost var was := View();
      var members := Members();
      WriteRecord(members, appended, logFine, syncFine);
      NextKeepsInv(was, WriteLog(appended, logFine, syncFine), View());
    }

    method WriteRecord(members: seq<nat>, appended: bool, logFine: bool, syncFine: bool)
      requires writers != [] && phase.Leading? && phase.count <= |writers|
      requires |results| <= |arrived| && writers == Queue(View())
      requires pending == GroupOps(writers[..phase.count]) && members == GroupMembers(writers[..phase.count], |results|)
      modifies this`log, this`phase, this`synced, this`mem
      ensures View() == Logged(old(View()), appended, logFine, syncFine)
      ensures phase.Written? && phase.count == old(phase.count)
    {
      hide GroupOps, GroupMembers, Number;
      var count := phase.count;
      var record := Record(lastSequence + 1, members, pending, logFine && !(writers[0].sync && !syncFine));
      assert record == NewRecord(View(), record.applied);
      if logFine {
        log := log + [record];
        if writers[0].sync && !syncFine {
          phase := Written(count, Failed, None, true);
        } else {
          if writers[0].sync {
            synced := |log|;
          }
          mem := mem + Number(pending, lastSequence + 1);
          phase := Written(count, Fine, Some(|log| - 1), false);
        }
      } else {
        if appended {
          log := log + [record];
        }
        phase := Written(count, Failed, None, false);
      }
    }

    /** Which writers the record carries. */
    method Members() returns (r: seq<nat>)
      requires Valid() && phase.Leading?
      ensures r == GroupMembers(writers[..phase.count], |results|)
    {
      hide Inv;
      CountFits(View());
      r := [];
      for i := 0 to phase.count
        invariant r == GroupMembers(writers[..i], |results|)
      {
        assert writers[..i + 1][..i] == writers[..i];
        if writers[i].batch.Some? {
          r := r + [|results| + i];
        }
      }
    }

    /** Advance the sequence, answer the group from the front and wake the next leader. */
    method FinishGroup()
      requires Valid() && phase.Written?
      modifies this
      ensures Valid() && Next(old(View()), Finish, View())
    {
      hide Inv, GroupOps, Answers, Next, Queue;
      CountFits(View());
      ghost var was := View();
      lastSequence := lastSequence + |pending|;
      broken := broken || phase.syncError;
      PopGroup();
      phase, pending := Idle, [];
      FinishIs(was, View());
      NextKeepsInv(was, Finish, View());
    }

    /** Answer every writer of the group and take it off the queue. */
    method PopGroup()
      requires phase.Written? && phase.count <= |writers|
      modifies this`writers, this`results
      ensures writers == old(writers)[phase.count..]
      ensures results == old(results) + Answers(old(writers)[..phase.count], phase)
    {
      ghost var q, before := writers, results;
      var popped := 0;
      while popped < phase.count
        invariant popped <= phase.count && writers == q[popped..]
        invariant results == before + Answers(q[..phase.count], phase)[..popped]
      {
        var ready := writers[0];
        writers := writers[1..];
        results := results + [Result(phase.answer, if ready.batch.Some? then phase.record else None)];
        popped := popped + 1;
      }
    }
  }
}
