/** Session lifecycle over both planes: any number of proxies, kills, store failures,
    crashes and restarts, one atomic step at a time. The steps of a proxy are those of
    `proxy` in the order of its code, with its deferred calls at the end of every path. */
module Lifecycle {
  import opened Texts
  import opened SessionRows

  /** Where a proxy stands. `Failing` holds the paths that finish without pumping. */
  datatype Phase =
    | Entered        // before the recording is created
    | Recorded       // recording file created, row not yet inserted
    | Opened         // row inserted, context not yet registered
    | Registered     // about to dial
    | Dialled        // about to ask for a session
    | Running        // pumping
    | Pumped         // pump returned, recorder still open
    | Sealed         // recorder closed, about to finish
    | Failing        // dial or session refused, about to finish
    | Done           // finish called, id still registered
    | Leaving        // context cancelled and id removed, or the row was never inserted
    | Gone           // returned

  /** `inserted` says that the row was inserted, `stranded` that it was although the insert
      reported an error. */
  datatype Proxy = Proxy(sid: string, phase: Phase, inserted: bool, stranded: bool, finishes: nat, stored: bool,
                         bytes: nat, sealed: bool)

  /** A kill asked for by an operator: read the row, look the id up, cancel what was found. */
  datatype Kill = Asking(id: string) | Looking(id: string) | Holding(id: string, pid: nat)
                | Reported(id: string, pid: nat) | Missed(id: string)

  datatype Gate = Down | Starting | Serving | Stopping

  /** `rows` and `files` are on disk; the rest lives in the process. */
  datatype Sys = Sys(gate: Gate, rows: Table, files: set<string>,
                     live: map<string, nat>, cancelled: set<nat>,
                     proxies: map<nat, Proxy>, kills: map<nat, Kill>)

  datatype Event =
    | Boot
    | Reconcile(at: string)
    | StartupFails
    | Shutdown
    | Crash
    | Enter(pid: nat, sid: string)
    | OpenRecording(pid: nat)
    | RecordingFails(pid: nat, created: bool)
    | OpenRow(pid: nat, opening: Opening)
    | RowFails(pid: nat, inserted: bool, opening: Opening)
    | Register(pid: nat)
    | Dial(pid: nat, ok: bool)
    | StartPump(pid: nat, ok: bool)
    | Write(pid: nat, n: nat)
    | PumpReturns(pid: nat)
    | Seal(pid: nat)
    | Finish(pid: nat, reached: bool, at: string, exitCode: int, reason: string)
    | Unregister(pid: nat)
    | Return(pid: nat)
    | AskKill(k: nat, id: string)
    | CheckKill(k: nat)
    | LookUp(k: nat)
    | Cancel(k: nat)
    | Idle

  ghost predicate Init(s: Sys) {
    s == Sys(Down, map[], {}, map[], {}, map[], map[])
  }

  predicate At(s: Sys, pid: nat, phase: Phase) { pid in s.proxies && s.proxies[pid].phase == phase }

  function Put(s: Sys, pid: nat, p: Proxy): Sys { s.(proxies := s.proxies[pid := p]) }

  function Move(s: Sys, pid: nat, phase: Phase): Sys
    requires pid in s.proxies
  {
    Put(s, pid, s.proxies[pid].(phase := phase))
  }

  /** The process is gone; what is on disk stays. */
  function Dead(s: Sys): Sys { Sys(Down, s.rows, s.files, map[], {}, map[], map[]) }

  predicate Copying(p: Proxy) { (p.phase.Running? || p.phase.Pumped?) && !p.sealed }

  /** A process is up and past its startup. */
  predicate Up(s: Sys) { s.gate.Serving? || s.gate.Stopping? }

  ghost predicate ProxyStep(s: Sys, e: Event, t: Sys) {
    match e
    case Enter(pid, sid) =>
      s.gate == Serving && pid !in s.proxies && t == Put(s, pid, Proxy(sid, Entered, false, false, 0, false, 0, false))
    case OpenRecording(pid) =>
      (&& At(s, pid, Entered) && s.proxies[pid].sid !in s.files
       && t == Move(s, pid, Recorded).(files := s.files + {s.proxies[pid].sid}))
    case RecordingFails(pid, created) =>
      (&& At(s, pid, Entered) && (created ==> s.proxies[pid].sid !in s.files)
       && t == Move(s, pid, Gone).(files := if created then s.files + {s.proxies[pid].sid} else s.files))
    case OpenRow(pid, opening) =>
      (&& At(s, pid, Recorded) && s.proxies[pid].sid !in s.rows
       && t == Put(s, pid, s.proxies[pid].(phase := Opened, inserted := true))
               .(rows := s.rows[s.proxies[pid].sid := NewRow(opening)]))
    case RowFails(pid, inserted, opening) =>
      (&& At(s, pid, Recorded) && (inserted ==> s.proxies[pid].sid !in s.rows)
       && t == Put(s, pid, s.proxies[pid].(phase := Leaving, stranded := inserted))
               .(rows := if inserted then s.rows[s.proxies[pid].sid := NewRow(opening)] else s.rows))
    case Register(pid) =>
      At(s, pid, Opened) && t == Move(s, pid, Registered).(live := s.live[s.proxies[pid].sid := pid])
    case Dial(pid, ok) => At(s, pid, Registered) && t == Move(s, pid, if ok then Dialled else Failing)
    case StartPump(pid, ok) => At(s, pid, Dialled) && t == Move(s, pid, if ok then Running else Failing)
    case Write(pid, n) =>
      (&& pid in s.proxies && Copying(s.proxies[pid])
       && t == Put(s, pid, s.proxies[pid].(bytes := s.proxies[pid].bytes + n)))
    case PumpReturns(pid) => At(s, pid, Running) && t == Move(s, pid, Pumped)
    case Seal(pid) => At(s, pid, Pumped) && t == Put(s, pid, s.proxies[pid].(phase := Sealed, sealed := true))
    case Finish(pid, reached, at, exitCode, reason) =>
      (&& (At(s, pid, Sealed) || At(s, pid, Failing))
       && var p := s.proxies[pid];
          t == Put(s, pid, p.(phase := Done, finishes := p.finishes + 1, stored := reached && IsOpen(s.rows, p.sid)))
               .(rows := if reached then Finished(s.rows, p.sid, at, Closing(exitCode, reason, p.bytes)) else s.rows))
    case Unregister(pid) =>
      (&& At(s, pid, Done)
       && t == Move(s, pid, Leaving).(live := s.live - {s.proxies[pid].sid}, cancelled := s.cancelled + {pid}))
    case Return(pid) => At(s, pid, Leaving) && t == Put(s, pid, s.proxies[pid].(phase := Gone, sealed := true))
    case _ => false
  }

  ghost predicate KillStep(s: Sys, e: Event, t: Sys) {
    match e
    case AskKill(k, id) => Up(s) && k !in s.kills && t == s.(kills := s.kills[k := Asking(id)])
    case CheckKill(k) =>
      (&& k in s.kills && s.kills[k].Asking?
       && var id := s.kills[k].id;
          t == s.(kills := s.kills[k := if IsOpen(s.rows, id) then Looking(id) else Missed(id)]))
    case LookUp(k) =>
      (&& k in s.kills && s.kills[k].Looking?
       && var id := s.kills[k].id;
          t == s.(kills := s.kills[k := if id in s.live then Holding(id, s.live[id]) else Missed(id)]))
    case Cancel(k) =>
      (&& k in s.kills && s.kills[k].Holding?
       && var c := s.kills[k];
          t == s.(kills := s.kills[k := Reported(c.id, c.pid)], cancelled := s.cancelled + {c.pid}))
    case _ => false
  }

  ghost predicate NodeStep(s: Sys, e: Event, t: Sys) {
    match e
    case Boot => s.gate == Down && t == s.(gate := Starting)
    case Reconcile(at) => s.gate == Starting && t == s.(gate := Serving, rows := Reconciled(s.rows, at))
    case StartupFails => s.gate == Starting && t == Dead(s)
    case Shutdown => s.gate == Serving && t == s.(gate := Stopping, cancelled := s.cancelled + s.proxies.Keys)
    case Crash => Up(s) && t == Dead(s)
    case _ => false
  }

  ghost predicate Step(s: Sys, e: Event, t: Sys) {
    ProxyStep(s, e, t) || KillStep(s, e, t) || NodeStep(s, e, t) || (e.Idle? && t == s)
  }

  // What every reachable state keeps -------------------------------------------------------

  predicate HasRow(p: Proxy) { p.inserted || p.stranded }

  /** The phases between the creation of the recording and its last use. */
  predicate HoldsFile(p: Proxy) {
    (!p.phase.Entered? && !p.phase.Gone?) || HasRow(p)
  }

  predicate InRegistry(p: Proxy) {
    && !p.phase.Entered? && !p.phase.Recorded? && !p.phase.Opened?
    && !p.phase.Leaving? && !p.phase.Gone?
  }

  /** A single proxy: the row is there from `Opened` on, and `finish` has been called exactly
      once when, and only when, the proxy is past it. */
  predicate ProxyOk(p: Proxy) {
    && (p.inserted <==> InRegistry(p) || p.phase.Opened? || p.finishes > 0)
    && p.finishes == (if p.phase.Done? || ((p.phase.Leaving? || p.phase.Gone?) && p.inserted) then 1 else 0)
    && (if p.phase.Running? || p.phase.Pumped? then !p.sealed
        else if p.phase.Sealed? then p.sealed
        else p.phase.Done? || p.phase.Leaving? || p.phase.Gone? || (p.bytes == 0 && !p.sealed))
    && (p.stored ==> p.finishes == 1)
    && (p.stranded ==> !p.inserted && (p.phase.Leaving? || p.phase.Gone?))
  }

  /** A proxy against the disk: its recording exists while it holds the id, its row exists
      once inserted, and a stored end carries its final byte count. */
  predicate ProxyOnDisk(p: Proxy, rows: Table, files: set<string>) {
    && ProxyOk(p)
    && (HoldsFile(p) ==> p.sid in files)
    && (HasRow(p) ==> p.sid in rows)
    && (p.stored ==> p.sid in rows && rows[p.sid].endedAt.Some? && rows[p.sid].recordedBytes == Some(p.bytes))
  }

  ghost predicate ProxiesOk(s: Sys) {
    forall p :: p in s.proxies ==> ProxyOnDisk(s.proxies[p], s.rows, s.files)
  }

  predicate SameId(s: Sys, p: nat, q: nat) {
    && p in s.proxies && q in s.proxies && HoldsFile(s.proxies[p]) && HoldsFile(s.proxies[q])
    && s.proxies[p].sid == s.proxies[q].sid
  }

  /** No two proxies ever hold the same id. */
  ghost predicate IdsDistinct(s: Sys) {
    forall p, q :: SameId(s, p, q) ==> p == q
  }

  ghost predicate RegistryOk(s: Sys) {
    && (forall id :: id in s.live ==>
          s.live[id] in s.proxies && s.proxies[s.live[id]].sid == id && InRegistry(s.proxies[s.live[id]]))
    && (forall p :: p in s.proxies && InRegistry(s.proxies[p]) ==>
          s.proxies[p].sid in s.live && s.live[s.proxies[p].sid] == p)
  }

  /** While serving, every open row belongs to a proxy of this run; before that there is none. */
  predicate Owns(s: Sys, p: nat, id: string) {
    p in s.proxies && HasRow(s.proxies[p]) && s.proxies[p].sid == id && !s.proxies[p].stored
  }

  ghost predicate OpenRowsOk(s: Sys) {
    Up(s) ==> forall id :: IsOpen(s.rows, id) ==> exists p :: Owns(s, p, id)
  }

  /** Outside a run the process has no state. */
  ghost predicate QuietOk(s: Sys) {
    !Up(s) ==> s.proxies == map[] && s.live == map[] && s.kills == map[] && s.cancelled == {}
  }

  ghost predicate KillsOk(s: Sys) {
    forall k :: k in s.kills ==>
      && (s.kills[k].Holding? ==> s.kills[k].pid in s.proxies && s.proxies[s.kills[k].pid].sid == s.kills[k].id)
      && (s.kills[k].Reported? ==> s.kills[k].pid in s.cancelled && s.kills[k].pid in s.proxies
                                   && s.proxies[s.kills[k].pid].sid == s.kills[k].id)
  }

  ghost predicate Inv(s: Sys) {
    ProxiesOk(s) && IdsDistinct(s) && RegistryOk(s) && OpenRowsOk(s) && QuietOk(s) && KillsOk(s)
  }

  lemma InitOk(s: Sys)
    requires Init(s)
    ensures Inv(s)
  {
  }

  // Proxy steps ------------------------------------------------------------------------------

  predicate WasInRegistry(s: Sys, pid: nat) { pid in s.proxies && InRegistry(s.proxies[pid]) }

  /** What any step of one proxy does to the rest of the system. */
  ghost predicate GoodMove(s: Sys, pid: nat, t: Sys) {
    && pid in t.proxies && t.proxies == s.proxies[pid := t.proxies[pid]]
    && t.gate == s.gate && Up(t) && t.kills == s.kills
    && s.files <= t.files && s.cancelled <= t.cancelled && TableKept(s.rows, t.rows)
    && var q := t.proxies[pid];
       ProxyOnDisk(q, t.rows, t.files)
       && (pid in s.proxies ==> q.sid == s.proxies[pid].sid)
       && (HoldsFile(q) ==> (pid in s.proxies && HoldsFile(s.proxies[pid])) || q.sid !in s.files)
       && t.live == (if InRegistry(q) then s.live[q.sid := pid]
                     else if WasInRegistry(s, pid) then s.live - {q.sid} else s.live)
       && (InRegistry(q) ==> WasInRegistry(s, pid) || q.sid !in s.live)
       && (forall id :: IsOpen(t.rows, id) ==>
             if id == q.sid && HasRow(q) then !q.stored
             else IsOpen(s.rows, id) && (pid in s.proxies && HasRow(s.proxies[pid]) ==> HasRow(q)))
  }

  lemma ProxiesAfterMove(s: Sys, pid: nat, t: Sys)
    requires ProxiesOk(s) && GoodMove(s, pid, t)
    ensures ProxiesOk(t)
  {
    hide ProxyOk, HoldsFile;
    forall p | p in t.proxies ensures ProxyOnDisk(t.proxies[p], t.rows, t.files) {
      if p != pid {
        var q := s.proxies[p];
        assert t.proxies[p] == q && ProxyOnDisk(q, s.rows, s.files);
        if q.sid in s.rows { assert RowKept(s.rows[q.sid], t.rows[q.sid]); }
      }
    }
  }

  lemma IdsAfterMove(s: Sys, pid: nat, t: Sys)
    requires ProxiesOk(s) && IdsDistinct(s) && GoodMove(s, pid, t)
    ensures IdsDistinct(t)
  {
    hide ProxyOk, HoldsFile, RowKept;
    forall p, q | SameId(t, p, q) ensures p == q {
      assert SameId(s, p, q) ==> p == q;
      assert p != pid ==> ProxyOnDisk(s.proxies[p], s.rows, s.files);
      assert q != pid ==> ProxyOnDisk(s.proxies[q], s.rows, s.files);
    }
  }

  lemma RegisteredHold(p: Proxy)
    requires InRegistry(p)
    ensures HoldsFile(p)
  {
  }

  lemma RegistryAfterMove(s: Sys, pid: nat, t: Sys)
    requires RegistryOk(s) && IdsDistinct(t) && GoodMove(s, pid, t)
    ensures RegistryOk(t)
  {
    hide HoldsFile, InRegistry, ProxyOnDisk, TableKept;
    var q := t.proxies[pid];
    forall p | p in t.proxies && InRegistry(t.proxies[p])
      ensures t.proxies[p].sid in t.live && t.live[t.proxies[p].sid] == p
    {
      RegisteredHold(t.proxies[p]);
      if InRegistry(q) { RegisteredHold(q); }
      assert SameId(t, p, pid) ==> p == pid;
    }
    forall id | id in t.live
      ensures t.live[id] in t.proxies && t.proxies[t.live[id]].sid == id && InRegistry(t.proxies[t.live[id]])
    {
      assert id in s.live ==> s.proxies[s.live[id]].sid == id;
    }
  }

  lemma RowsAfterMove(s: Sys, pid: nat, t: Sys)
    requires OpenRowsOk(s) && GoodMove(s, pid, t)
    ensures OpenRowsOk(t)
  {
    hide ProxyOnDisk, TableKept;
    var q := t.proxies[pid];
    forall id | IsOpen(t.rows, id) ensures exists p :: Owns(t, p, id) {
      if id == q.sid && HasRow(q) {
        assert Owns(t, pid, id);
      } else {
        var p :| Owns(s, p, id);
        assert Owns(t, p, id);
      }
    }
  }

  lemma KillsAfterMove(s: Sys, pid: nat, t: Sys)
    requires KillsOk(s) && GoodMove(s, pid, t)
    ensures KillsOk(t)
  {
    hide ProxyOnDisk, TableKept, HoldsFile, InRegistry;
  }

  lemma MoveKeeps(s: Sys, pid: nat, t: Sys)
    requires Inv(s) && GoodMove(s, pid, t)
    ensures Inv(t)
  {
    hide ProxiesOk, IdsDistinct, RegistryOk, OpenRowsOk, KillsOk, ProxyOnDisk, TableKept;
    ProxiesAfterMove(s, pid, t);
    IdsAfterMove(s, pid, t);
    RegistryAfterMove(s, pid, t);
    RowsAfterMove(s, pid, t);
    KillsAfterMove(s, pid, t);
  }

  /** The facts a step of proxy pid needs about itself. */
  lemma OwnFacts(s: Sys, pid: nat)
    requires Inv(s) && pid in s.proxies
    ensures Up(s)
    ensures var p := s.proxies[pid];
      && ProxyOnDisk(p, s.rows, s.files)
      && (InRegistry(p) ==> p.sid in s.live && s.live[p.sid] == pid)
      && (!InRegistry(p) && HoldsFile(p) ==> p.sid !in s.live)
  {
    hide ProxyOnDisk, KillsOk, OpenRowsOk;
    var p := s.proxies[pid];
    if p.sid in s.live {
      RegisteredHold(s.proxies[s.live[p.sid]]);
      assert HoldsFile(p) ==> SameId(s, pid, s.live[p.sid]);
    }
  }

  lemma TableSame(t: Table)
    ensures TableKept(t, t)
  {
  }

  lemma EnterIsGood(s: Sys, e: Event, t: Sys)
    requires Inv(s) && e.Enter? && ProxyStep(s, e, t)
    ensures GoodMove(s, e.pid, t)
  {
    TableSame(s.rows);
    hide Inv, TableKept;
  }

  lemma RecordingIsGood(s: Sys, e: Event, t: Sys)
    requires Inv(s) && (e.OpenRecording? || e.RecordingFails?) && ProxyStep(s, e, t)
    ensures GoodMove(s, e.pid, t)
  {
    hide Inv, TableKept;
    OwnFacts(s, e.pid);
    TableSame(s.rows);
  }

  lemma NewRowFacts(t: Table, id: string, o: Opening)
    requires id !in t
    ensures TableKept(t, t[id := NewRow(o)])
    ensures forall other :: IsOpen(t[id := NewRow(o)], other) ==> other == id || IsOpen(t, other)
  {
  }

  lemma RowIsGood(s: Sys, e: Event, t: Sys)
    requires Inv(s) && (e.OpenRow? || e.RowFails?) && ProxyStep(s, e, t)
    ensures GoodMove(s, e.pid, t)
  {
    hide Inv, TableKept, NewRow;
    OwnFacts(s, e.pid);
    TableSame(s.rows);
    if s.proxies[e.pid].sid !in s.rows { NewRowFacts(s.rows, s.proxies[e.pid].sid, e.opening); }
  }

  lemma RegisterIsGood(s: Sys, e: Event, t: Sys)
    requires Inv(s) && e.Register? && ProxyStep(s, e, t)
    ensures GoodMove(s, e.pid, t)
  {
    hide Inv, TableKept;
    OwnFacts(s, e.pid);
    TableSame(s.rows);
  }

  /** Steps that keep the proxy registered touch nothing else. */
  lemma StayIsGood(s: Sys, pid: nat, q: Proxy)
    requires Inv(s) && pid in s.proxies && InRegistry(s.proxies[pid]) && !s.proxies[pid].stored
    requires InRegistry(q) && ProxyOk(q) && q.sid == s.proxies[pid].sid && q.inserted && !q.stored
    ensures GoodMove(s, pid, Put(s, pid, q))
  {
    OwnFacts(s, pid);
    TableSame(s.rows);
    RegisteredHold(q);
    RegisteredHold(s.proxies[pid]);
    hide Inv, TableKept, HoldsFile, InRegistry;
    assert s.live == s.live[q.sid := pid];
  }

  lemma DialIsGood(s: Sys, e: Event, t: Sys)
    requires Inv(s) && (e.Dial? || e.StartPump?) && ProxyStep(s, e, t)
    ensures GoodMove(s, e.pid, t)
  {
    hide Inv, GoodMove;
    OwnFacts(s, e.pid);
    StayIsGood(s, e.pid, t.proxies[e.pid]);
  }

  lemma PumpIsGood(s: Sys, e: Event, t: Sys)
    requires Inv(s) && (e.Write? || e.PumpReturns? || e.Seal?) && ProxyStep(s, e, t)
    ensures GoodMove(s, e.pid, t)
  {
    hide Inv, GoodMove;
    OwnFacts(s, e.pid);
    StayIsGood(s, e.pid, t.proxies[e.pid]);
  }

  lemma FinishedFacts(t: Table, id: string, at: string, c: Closing)
    ensures var u := Finished(t, id, at, c);
      && TableKept(t, u) && u.Keys == t.Keys && (forall other :: IsOpen(u, other) ==> IsOpen(t, other) && other != id)
      && (IsOpen(t, id) ==> u[id].endedAt.Some? && u[id].recordedBytes == Some(c.recordedBytes))
  {
  }

  /** A proxy about to finish is registered, and one that has finished still is. */
  lemma FinishedProxy(p: Proxy, q: Proxy)
    requires ProxyOk(p) && (p.phase.Sealed? || p.phase.Failing?)
    requires q == p.(phase := Done, finishes := p.finishes + 1, stored := q.stored)
    ensures ProxyOk(q) && InRegistry(p) && InRegistry(q) && HoldsFile(p) && HasRow(p) && HasRow(q)
  {
  }

  lemma FinishMoves(s: Sys, pid: nat, rows: Table, stored: bool)
    requires Inv(s) && (At(s, pid, Sealed) || At(s, pid, Failing)) && TableKept(s.rows, rows)
    requires forall id :: IsOpen(rows, id) ==> IsOpen(s.rows, id) && (stored ==> id != s.proxies[pid].sid)
    requires s.rows.Keys <= rows.Keys
    requires var sid := s.proxies[pid].sid; stored ==>
               sid in rows && rows[sid].endedAt.Some? && rows[sid].recordedBytes == Some(s.proxies[pid].bytes)
    ensures var p := s.proxies[pid];
      GoodMove(s, pid, Put(s, pid, p.(phase := Done, finishes := p.finishes + 1, stored := stored)).(rows := rows))
  {
    hide Inv, IsOpen, TableKept, ProxyOk, InRegistry, HoldsFile, HasRow;
    OwnFacts(s, pid);
    var p := s.proxies[pid];
    FinishedProxy(p, p.(phase := Done, finishes := p.finishes + 1, stored := stored));
    assert s.live == s.live[p.sid := pid];
  }

  lemma FinishIsGood(s: Sys, e: Event, t: Sys)
    requires Inv(s) && e.Finish? && ProxyStep(s, e, t)
    ensures GoodMove(s, e.pid, t)
  {
    hide Inv, TableKept, Finished, GoodMove, InRegistry, HoldsFile, ProxyOk;
    var p := s.proxies[e.pid];
    var c := Closing(e.exitCode, e.reason, p.bytes);
    TableSame(s.rows);
    FinishedFacts(s.rows, p.sid, e.at, c);
    var rows := if e.reached then Finished(s.rows, p.sid, e.at, c) else s.rows;
    FinishMoves(s, e.pid, rows, e.reached && IsOpen(s.rows, p.sid));
  }

  lemma UnregisterIsGood(s: Sys, e: Event, t: Sys)
    requires Inv(s) && e.Unregister? && ProxyStep(s, e, t)
    ensures GoodMove(s, e.pid, t)
  {
    hide Inv, TableKept;
    OwnFacts(s, e.pid);
    TableSame(s.rows);
  }

  lemma ReturnIsGood(s: Sys, e: Event, t: Sys)
    requires Inv(s) && e.Return? && ProxyStep(s, e, t)
    ensures GoodMove(s, e.pid, t)
  {
    hide Inv, TableKept;
    OwnFacts(s, e.pid);
    TableSame(s.rows);
  }

  lemma ProxyStepKeeps(s: Sys, e: Event, t: Sys)
    requires Inv(s) && ProxyStep(s, e, t)
    ensures Inv(t) && TableKept(s.rows, t.rows)
  {
    hide GoodMove, Inv;
    match e {
      case Enter(_, _) => EnterIsGood(s, e, t);
      case OpenRecording(_) => RecordingIsGood(s, e, t);
      case RecordingFails(_, _) => RecordingIsGood(s, e, t);
      case OpenRow(_, _) => RowIsGood(s, e, t);
      case RowFails(_, _, _) => RowIsGood(s, e, t);
      case Register(_) => RegisterIsGood(s, e, t);
      case Dial(_, _) => DialIsGood(s, e, t);
      case StartPump(_, _) => DialIsGood(s, e, t);
      case Finish(_, _, _, _, _) => FinishIsGood(s, e, t);
      case Unregister(_) => UnregisterIsGood(s, e, t);
      case Return(_) => ReturnIsGood(s, e, t);
      case _ => PumpIsGood(s, e, t);
    }
    MoveKeeps(s, e.pid, t);
    RowsKeptByMove(s, e.pid, t);
  }

  lemma RowsKeptByMove(s: Sys, pid: nat, t: Sys)
    requires GoodMove(s, pid, t)
    ensures TableKept(s.rows, t.rows)
  {
  }

  // The other steps -----------------------------------------------------------------------------

  lemma KillStepKeeps(s: Sys, e: Event, t: Sys)
    requires Inv(s) && KillStep(s, e, t)
    ensures Inv(t) && TableKept(s.rows, t.rows)
  {
    hide ProxyOnDisk, HoldsFile, InRegistry, HasRow, RowKept;
    assert forall p, q :: SameId(t, p, q) <==> SameId(s, p, q);
    assert forall p, id :: Owns(t, p, id) <==> Owns(s, p, id);
    TableSame(s.rows);
    forall id | Up(t) && IsOpen(t.rows, id) ensures exists p :: Owns(t, p, id) {
      var p :| Owns(s, p, id);
      assert Owns(t, p, id);
    }
  }

  lemma NodeStepKeeps(s: Sys, e: Event, t: Sys)
    requires Inv(s) && NodeStep(s, e, t)
    ensures Inv(t) && TableKept(s.rows, t.rows)
  {
    hide HoldsFile, InRegistry;
    assert forall p, q :: SameId(t, p, q) ==> SameId(s, p, q);
    assert forall p, id :: p in t.proxies ==> (Owns(t, p, id) <==> Owns(s, p, id));
    forall id | Up(t) && IsOpen(t.rows, id) ensures exists p :: Owns(t, p, id) {
      assert !e.Reconcile?;
      var p :| Owns(s, p, id);
      assert Owns(t, p, id);
    }
  }

  lemma StepKeeps(s: Sys, e: Event, t: Sys)
    requires Inv(s) && Step(s, e, t)
    ensures Inv(t) && TableKept(s.rows, t.rows)
  {
    hide Inv, ProxyStep, KillStep, NodeStep, TableKept, ProxyOnDisk;
    if ProxyStep(s, e, t) { ProxyStepKeeps(s, e, t); }
    if KillStep(s, e, t) { KillStepKeeps(s, e, t); }
    if NodeStep(s, e, t) { NodeStepKeeps(s, e, t); }
    TableSame(s.rows);
  }

  // What the steps leave alone --------------------------------------------------------------------

  predicate OfProxy(e: Event) {
    !OfKill(e) && !OfNode(e) && !e.Idle?
  }

  predicate OfKill(e: Event) { e.AskKill? || e.CheckKill? || e.LookUp? || e.Cancel? }

  predicate OfNode(e: Event) { e.Boot? || e.Reconcile? || e.StartupFails? || e.Shutdown? || e.Crash? }

  lemma ProxyFrame(s: Sys, e: Event, t: Sys)
    requires ProxyStep(s, e, t)
    ensures OfProxy(e) && t.gate == s.gate && t.kills == s.kills && s.cancelled <= t.cancelled
  {
    hide Finished, InRegistry, HoldsFile, At, Copying;
  }

  lemma NewProxies(s: Sys, e: Event, t: Sys, p: nat)
    requires ProxyStep(s, e, t) && p in t.proxies
    ensures p in s.proxies || (e.Enter? && p == e.pid)
  {
    hide Finished, InRegistry, HoldsFile, Copying;
  }

  lemma KillFrame(s: Sys, e: Event, t: Sys)
    requires KillStep(s, e, t)
    ensures OfKill(e) && t.gate == s.gate && t.proxies == s.proxies && s.live == t.live
    ensures forall k :: k in t.kills ==> k in s.kills || e.AskKill?
    ensures t.cancelled == if e.Cancel? then s.cancelled + {t.kills[e.k].pid} else s.cancelled
  {
  }

  lemma NodeFrame(s: Sys, e: Event, t: Sys)
    requires NodeStep(s, e, t)
    ensures OfNode(e) && t.proxies.Keys <= s.proxies.Keys && (!e.Crash? && !e.StartupFails? ==> t.proxies == s.proxies)
    ensures !e.Crash? && !e.StartupFails? ==> t.kills == s.kills && s.cancelled <= t.cancelled
    ensures !e.Crash? && !e.StartupFails? && Up(s) ==> Up(t)
    ensures e.Crash? || e.StartupFails? ==> t == Dead(s)
    ensures Up(t) ==> Up(s) || (e.Reconcile? && s.gate.Starting?)
  {
    hide Reconciled;
  }

  lemma Frame(s: Sys, e: Event, t: Sys)
    requires Step(s, e, t)
    ensures OfProxy(e) ==> ProxyStep(s, e, t)
    ensures OfKill(e) ==> KillStep(s, e, t)
    ensures OfNode(e) ==> NodeStep(s, e, t)
    ensures e.Idle? ==> t == s
  {
    hide ProxyStep, KillStep, NodeStep, OfProxy, OfKill, OfNode;
    if ProxyStep(s, e, t) { ProxyFrame(s, e, t); }
    if KillStep(s, e, t) { KillFrame(s, e, t); }
    if NodeStep(s, e, t) { NodeFrame(s, e, t); }
    Kinds(e);
  }

  lemma Kinds(e: Event)
    ensures !(OfProxy(e) && OfKill(e)) && !(OfProxy(e) && OfNode(e)) && !(OfKill(e) && OfNode(e))
    ensures e.Idle? <==> !OfProxy(e) && !OfKill(e) && !OfNode(e)
  {
  }

  // Runs ------------------------------------------------------------------------------------------

  ghost predicate Run(states: seq<Sys>, events: seq<Event>) {
    && |states| == |events| + 1 && Init(states[0])
    && forall i :: 0 <= i < |events| ==> Step(states[i], events[i], states[i + 1])
  }

  lemma {:induction false} RunKeeps(states: seq<Sys>, events: seq<Event>, n: nat)
    requires Run(states, events) && n <= |events|
    ensures Inv(states[n])
    ensures n > 0 ==> TableKept(states[n - 1].rows, states[n].rows)
  {
    hide Step, Inv, TableKept;
    if n == 0 {
      InitOk(states[0]);
    } else {
      RunKeeps(states, events, n - 1);
      StepKeeps(states[n - 1], events[n - 1], states[n]);
    }
  }

  /** Rows are never lost, and a session that ended stays exactly as it ended, through
      later finishes, reconciles, crashes and restarts. */
  lemma {:induction false} EndedForever(states: seq<Sys>, events: seq<Event>, i: nat, j: nat)
    requires Run(states, events) && i <= j <= |events|
    ensures TableKept(states[i].rows, states[j].rows)
    decreases j
  {
    hide Step, Inv;
    if i < j {
      EndedForever(states, events, i, j - 1);
      RunKeeps(states, events, j);
    }
  }

  /** Every path of a proxy after its row was inserted calls finish exactly once and leaves
      the id out of the registry; a path before it calls finish not at all. */
  lemma ReturnedProxies(states: seq<Sys>, events: seq<Event>, n: nat, pid: nat)
    requires Run(states, events) && n <= |events|
    requires pid in states[n].proxies && states[n].proxies[pid].phase.Gone?
    ensures var p := states[n].proxies[pid];
      && p.finishes == (if p.inserted then 1 else 0)
      && (HasRow(p) ==> p.sid in states[n].rows && p.sid !in states[n].live)
      && pid !in states[n].live.Values
      && (p.stored ==>
            p.sid in states[n].rows && states[n].rows[p.sid].endedAt.Some?
            && states[n].rows[p.sid].recordedBytes == Some(p.bytes))
  {
    hide Step;
    RunKeeps(states, events, n);
    OwnFacts(states[n], pid);
  }

  /** No two proxies of a process ever hold one id, even when the generated ids collide,
      because the recording is created exclusively. */
  lemma IdsNeverShared(states: seq<Sys>, events: seq<Event>, n: nat, p: nat, q: nat)
    requires Run(states, events) && n <= |events|
    requires p in states[n].proxies && q in states[n].proxies && p != q
    requires HoldsFile(states[n].proxies[p]) && HoldsFile(states[n].proxies[q])
    ensures states[n].proxies[p].sid != states[n].proxies[q].sid
  {
    hide Step;
    RunKeeps(states, events, n);
    assert SameId(states[n], p, q) ==> p == q;
  }

  /** The registry's add never overwrites a live entry, and dialling happens only with the
      recording created, the row inserted and the id registered. */
  lemma RegisterIsFresh(states: seq<Sys>, events: seq<Event>, n: nat)
    requires Run(states, events) && n < |events|
    ensures events[n].Register? && ProxyStep(states[n], events[n], states[n + 1]) ==>
              states[n].proxies[events[n].pid].sid !in states[n].live
    ensures events[n].Dial? && ProxyStep(states[n], events[n], states[n + 1]) ==>
              (var sid := states[n].proxies[events[n].pid].sid;
               sid in states[n].files && sid in states[n].rows
               && sid in states[n].live && states[n].live[sid] == events[n].pid)
  {
    RunKeeps(states, events, n);
    if (events[n].Register? || events[n].Dial?) && ProxyStep(states[n], events[n], states[n + 1]) {
      OwnFacts(states[n], events[n].pid);
    }
  }

  /** While the gateway serves, every open row belongs to a proxy of this process: one whose
      finish is yet to be called, one whose finish was not stored, or one that was told its
      row could not be inserted. */
  lemma OpenRowsHaveOwners(states: seq<Sys>, events: seq<Event>, n: nat, id: string)
    requires Run(states, events) && n <= |events| && Up(states[n]) && IsOpen(states[n].rows, id)
    ensures exists p :: Owns(states[n], p, id)
  {
    hide Step;
    RunKeeps(states, events, n);
  }

  /** A startup that succeeds leaves no open row behind, before any session exists. */
  lemma ReconcileClosesAll(states: seq<Sys>, events: seq<Event>, n: nat)
    requires Run(states, events) && n < |events| && events[n].Reconcile?
    ensures var t := states[n + 1];
      (forall id :: !IsOpen(t.rows, id)) && t.proxies == map[] && t.rows.Keys == states[n].rows.Keys
  {
    RunKeeps(states, events, n);
    assert Step(states[n], events[n], states[n + 1]);
    assert NodeStep(states[n], events[n], states[n + 1]);
  }

  /** Between the end of one process and the first session of the next there is a
      reconcile: no session is entered over rows an earlier run left open. */
  lemma {:induction false} ReconcileBeforeSessions(states: seq<Sys>, events: seq<Event>, i: nat, j: nat)
    requires Run(states, events) && i <= j < |events|
    requires states[i].gate.Down? && events[j].Enter?
    ensures exists k :: i < k < j && events[k].Reconcile?
  {
    assert Step(states[j], events[j], states[j + 1]);
    assert states[j].gate.Serving?;
    LastReconcile(states, events, i, j);
  }

  lemma {:induction false} LastReconcile(states: seq<Sys>, events: seq<Event>, i: nat, j: nat)
    requires Run(states, events) && i <= j <= |events| && states[i].gate.Down?
    ensures Up(states[j]) ==> exists k :: i < k < j && events[k].Reconcile?
    decreases j
  {
    if i < j {
      assert Step(states[j - 1], events[j - 1], states[j]);
      LastReconcile(states, events, i, j - 1);
      if Up(states[j]) && !Up(states[j - 1]) {
        GateOpens(states[j - 1], events[j - 1], states[j]);
      }
    }
  }

  lemma GateOpens(s: Sys, e: Event, t: Sys)
    requires Step(s, e, t) && !Up(s) && Up(t)
    ensures e.Reconcile? && s.gate.Starting?
  {
    hide ProxyStep, KillStep, NodeStep, OfProxy, OfKill, OfNode;
    if ProxyStep(s, e, t) { ProxyFrame(s, e, t); }
    if KillStep(s, e, t) { KillFrame(s, e, t); }
    if NodeStep(s, e, t) { NodeFrame(s, e, t); }
  }

  /** Id `id` is registered to proxy `pid`, whose session it is. */
  predicate FoundAt(s: Sys, id: string, pid: nat) {
    id in s.live && s.live[id] == pid && pid in s.proxies && s.proxies[pid].sid == id
  }

  predicate Found(c: Kill) { c.Holding? || c.Reported? }

  ghost predicate FoundSince(states: seq<Sys>, m: nat, n: nat, id: string, pid: nat)
    requires n < |states|
  {
    m < n && FoundAt(states[m], id, pid) && forall i :: m <= i <= n ==> Up(states[i])
  }

  /** A kill reports true only if that id was registered to that proxy at an earlier moment
      of the same process. */
  lemma {:induction false} KillFoundIt(states: seq<Sys>, events: seq<Event>, n: nat, k: nat)
    requires Run(states, events) && n <= |events| && k in states[n].kills && Found(states[n].kills[k])
    ensures exists m :: FoundSince(states, m, n, states[n].kills[k].id, states[n].kills[k].pid)
  {
    hide Inv, Step, FoundAt, Up;
    assert states[0].kills == map[];
    var s, t := states[n - 1], states[n];
    var id, pid := t.kills[k].id, t.kills[k].pid;
    RunKeeps(states, events, n - 1);
    KillOrigin(s, events[n - 1], t, k);
    if Found(s.kills[k]) && s.kills[k].id == id && s.kills[k].pid == pid {
      KillFoundIt(states, events, n - 1, k);
      var m :| FoundSince(states, m, n - 1, id, pid);
      assert FoundSince(states, m, n, id, pid);
    } else {
      assert FoundSince(states, n - 1, n, id, pid);
    }
  }

  lemma KillOrigin(s: Sys, e: Event, t: Sys, k: nat)
    requires Inv(s) && Step(s, e, t) && k in t.kills && Found(t.kills[k])
    ensures Up(s) && Up(t) && k in s.kills
    ensures var c := t.kills[k];
      (Found(s.kills[k]) && s.kills[k].id == c.id && s.kills[k].pid == c.pid) || FoundAt(s, c.id, c.pid)
  {
    hide ProxyStep, NodeStep, OfProxy, OfKill, OfNode, Inv;
    if ProxyStep(s, e, t) { ProxyFrame(s, e, t); }
    if NodeStep(s, e, t) { NodeFrame(s, e, t); }
    KillParts(s);
    hide QuietOk, RegistryOk;
  }

  lemma KillParts(s: Sys)
    requires Inv(s)
    ensures !Up(s) ==> s.kills == map[]
    ensures forall id :: id in s.live ==> FoundAt(s, id, s.live[id])
  {
    hide ProxiesOk, IdsDistinct, OpenRowsOk, KillsOk, InRegistry;
  }

  /** A reported kill has cancelled the context of the session it found. */
  lemma ReportedIsCancelled(states: seq<Sys>, events: seq<Event>, n: nat, k: nat)
    requires Run(states, events) && n <= |events| && k in states[n].kills && states[n].kills[k].Reported?
    ensures states[n].kills[k].pid in states[n].cancelled
  {
    hide Step;
    RunKeeps(states, events, n);
  }

  /** Cancelling is permanent within a process, and a kill cancels the context of the proxy
      it found and no other. */
  lemma CancelTouchesOne(s: Sys, e: Event, t: Sys)
    requires Step(s, e, t) && Up(t)
    ensures s.cancelled <= t.cancelled
    ensures e.Cancel? ==> e.k in s.kills && s.kills[e.k].Holding? && t.cancelled == s.cancelled + {s.kills[e.k].pid}
    ensures e.AskKill? || e.CheckKill? || e.LookUp? ==> t.cancelled == s.cancelled
  {
    Frame(s, e, t);
    hide ProxyStep, NodeStep;
    if OfProxy(e) { ProxyFrame(s, e, t); }
    if OfNode(e) { NodeFrame(s, e, t); }
    if OfKill(e) { KillFrame(s, e, t); }
  }
}
