/** The FILE writer of src/log_writer_file_mysql.cc: `log_fp` behind a read/write lock, opened
lazily by giving up the read lock, taking the write lock and looking again. */
module FileWriter {
  import opened Bytes

  type Tid = nat

  /** What was done to the file system; handles are numbered as they are made. */
  datatype Io = Opened(h: nat) | Refused | Written(h: nat, ok: bool) | Closed(h: nat)

  /** Where a thread is. The flag of `Ready` and `Done` tells the write lock from the read
      lock. */
  datatype Pc =
    | Idle
    | WantRead            // file_writer_write, before the read lock
    | Reading             // read lock held, log_fp not looked at yet
    | WantWrite           // log_fp was null: no lock held, about to take the write lock
    | Upgraded            // write lock held, about to look again
    | Ready(write: bool)  // about to write the line
    | WantReopen          // file_writer_reopen, before the write lock
    | Reopening           // write lock held
    | Opening             // the old handle is closed
    | WantClose           // file_writer_close, before the write lock
    | Closing             // write lock held
    | Done(write: bool)   // about to unlock

  datatype Call = Write | Reopen | Close

  /** Answers of the outside: whether the path is set, whether fopen and fwrite succeed. */
  datatype Answer = Answer(path: bool, fopen: bool, fwrite: bool)

  /** The handle and the counters. */
  datatype File = File(fp: Option<nat>, made: nat, failures: nat, failureLogged: bool, io: seq<Io>)

  datatype System = System(file: File, readers: set<Tid>, writer: Option<Tid>, pcs: map<Tid, Pc>)
  {
    function PcOf(t: Tid): Pc { if t in pcs then pcs[t] else Idle }

    function At(t: Tid, pc: Pc): System { this.(pcs := pcs[t := pc]) }

    /** Release whatever the thread holds. */
    function Unlock(t: Tid, pc: Pc): System {
      this.(readers := readers - {t}, writer := if writer == Some(t) then None else writer).At(t, pc)
    }
  }

  const NoFile := File(None, 0, 0, false, [])

  const Start := System(NoFile, {}, None, map[])

  // ---- under the lock ----

  function OpenLocked(f: File, a: Answer): (File, bool) {
    if !a.path then (f, false)
    else if !a.fopen then (f.(fp := None, failures := f.failures + 1, failureLogged := true, io := f.io + [Refused]), false)
    else (f.(fp := Some(f.made), made := f.made + 1, failureLogged := false, io := f.io + [Opened(f.made)]), true)
  }

  function CloseLocked(f: File): File {
    if f.fp.None? then f else f.(fp := None, io := f.io + [Closed(f.fp.value)])
  }

  function WriteLocked(f: File, a: Answer): File
    requires f.fp.Some?
  {
    f.(io := f.io + [Written(f.fp.value, a.fwrite)], failures := if a.fwrite then f.failures else f.failures + 1)
  }

  /** The code of these sections. */
  class LogFile {
    var fp: Option<nat>
    var made: nat
    var failures: nat
    var failureLogged: bool
    ghost var io: seq<Io>

    ghost function View(): File
      reads this
    {
      File(fp, made, failures, failureLogged, io)
    }

    constructor ()
      ensures View() == NoFile
    {
      fp, made, failures, failureLogged, io := None, 0, 0, false, [];
    }

    method Open(a: Answer) returns (ok: bool)
      requires fp.None?
      modifies this
      ensures (View(), ok) == OpenLocked(old(View()), a)
    {
      if !a.path {
        return false;
      }
      if a.fopen {
        fp, io := Some(made), io + [Opened(made)];
        made := made + 1;
      }
      if fp.None? {
        io := io + [Refused];
        failureLogged := true;
        failures := failures + 1;
        return false;
      }
      failureLogged := false;
      return true;
    }

    method CloseFile()
      modifies this
      ensures View() == CloseLocked(old(View()))
    {
      if fp.Some? {
        io := io + [Closed(fp.value)];
        fp := None;
      }
    }

    method ReopenFile(a: Answer) returns (ok: bool)
      modifies this
      ensures (View(), ok) == OpenLocked(CloseLocked(old(View())), a)
    {
      CloseFile();
      ok := Open(a);
    }

    /** `file_writer_write` after the upgrade: open unless another thread did, then write. */
    method WriteUpgraded(a: Answer) returns (ok: bool)
      modifies this
      ensures var f := if old(fp).Some? then (old(View()), true) else OpenLocked(old(View()), a);
              ok == (f.1 && a.fwrite) && View() == if f.1 && f.0.fp.Some? then WriteLocked(f.0, a) else f.0
    {
      if fp.None? {
        var isOpen := Open(a);
        if !isOpen {
          return false;
        }
      }
      io := io + [Written(fp.value, a.fwrite)];
      if a.fwrite {
        return true;
      }
      failures := failures + 1;
      return false;
    }
  }

  // ---- the steps of every thread ----

  datatype Step = Enter(t: Tid, call: Call) | Lock(t: Tid) | Go(t: Tid, answer: Answer)

  function Entering(s: System, t: Tid, call: Call): System {
    if s.PcOf(t) != Idle then s else
      match call case Write => s.At(t, WantRead) case Reopen => s.At(t, WantReopen) case Close => s.At(t, WantClose)
  }

  /** Readers share, a writer is alone; a thread that cannot get its lock waits. */
  function Locking(s: System, t: Tid): System {
    match s.PcOf(t)
    case WantRead => if s.writer.None? then s.(readers := s.readers + {t}).At(t, Reading) else s
    case WantWrite => if s.writer.None? && s.readers == {} then s.(writer := Some(t)).At(t, Upgraded) else s
    case WantReopen => if s.writer.None? && s.readers == {} then s.(writer := Some(t)).At(t, Reopening) else s
    case WantClose => if s.writer.None? && s.readers == {} then s.(writer := Some(t)).At(t, Closing) else s
    case _ => s
  }

  /** One action with the lock held. */
  function Going(s: System, t: Tid, a: Answer): System {
    match s.PcOf(t)
    case Reading => if s.file.fp.Some? then s.At(t, Ready(false)) else s.Unlock(t, WantWrite)
    case Upgraded =>
      if s.file.fp.Some? then s.At(t, Ready(true)) else
        var (f, ok) := OpenLocked(s.file, a);
        s.(file := f).At(t, if ok then Ready(true) else Done(true))
    case Ready(w) => if s.file.fp.Some? then s.(file := WriteLocked(s.file, a)).At(t, Done(w)) else s
    case Reopening => s.(file := CloseLocked(s.file)).At(t, Opening)
    case Opening => s.(file := OpenLocked(s.file, a).0).At(t, Done(true))
    case Closing => s.(file := CloseLocked(s.file)).At(t, Done(true))
    case Done(_) => s.Unlock(t, Idle)
    case _ => s
  }

  function Next(s: System, step: Step): System {
    match step
    case Enter(t, call) => Entering(s, t, call)
    case Lock(t) => Locking(s, t)
    case Go(t, a) => Going(s, t, a)
  }

  function Exec(steps: seq<Step>): System {
    if steps == [] then Start else Next(Exec(steps[..|steps| - 1]), steps[|steps| - 1])
  }

  // ---- the invariant ----

  predicate Reads(pc: Pc) { pc == Reading || pc == Ready(false) || pc == Done(false) }

  predicate Writes(pc: Pc) {
    pc == Upgraded || pc == Ready(true) || pc == Reopening || pc == Opening || pc == Closing || pc == Done(true)
  }

  /** The lock is held by exactly the threads that are inside. */
  ghost predicate Locked(s: System) {
    && (s.writer.Some? ==> s.readers == {})
    && (forall t: Tid :: t in s.readers <==> Reads(s.PcOf(t)))
    && (forall t: Tid :: s.writer == Some(t) <==> Writes(s.PcOf(t)))
  }

  /** A thread about to write finds a handle; one about to open anew finds none. */
  ghost predicate Usable(s: System) {
    && (forall t: Tid :: s.PcOf(t).Ready? ==> s.file.fp.Some?)
    && (forall t: Tid :: s.PcOf(t).Opening? ==> s.file.fp.None?)
  }

  /** The handles open after some calls. */
  function OpenAfter(io: seq<Io>): set<nat> {
    if io == [] then {} else
      var before, x := OpenAfter(io[..|io| - 1]), io[|io| - 1];
      match x case Opened(h) => before + {h} case Closed(h) => before - {h} case _ => before
  }

  function Opens(io: seq<Io>): nat {
    if io == [] then 0 else Opens(io[..|io| - 1]) + if io[|io| - 1].Opened? then 1 else 0
  }

  function Closes(io: seq<Io>): nat {
    if io == [] then 0 else Closes(io[..|io| - 1]) + if io[|io| - 1].Closed? then 1 else 0
  }

  /** Opens that the system refused, and short writes. */
  function FailedCalls(io: seq<Io>): nat {
    if io == [] then 0 else
      var x := io[|io| - 1];
      FailedCalls(io[..|io| - 1]) + if x.Refused? || (x.Written? && !x.ok) then 1 else 0
  }

  /** Every call meets the handle it needs: nothing is opened while another handle is open,
      and a handle is written or closed only while it is the open one. */
  ghost predicate Disciplined(io: seq<Io>) {
    forall j :: 0 <= j < |io| ==> OpenAfter(io[..j]) == if io[j].Opened? || io[j].Refused? then {} else {io[j].h}
  }

  ghost predicate Sound(f: File) {
    && Disciplined(f.io)
    && OpenAfter(f.io) == (if f.fp.Some? then {f.fp.value} else {})
    && Opens(f.io) == Closes(f.io) + (if f.fp.Some? then 1 else 0)
    && f.failures == FailedCalls(f.io)
  }

  ghost predicate Inv(s: System) { Locked(s) && Usable(s) && Sound(s.file) }

  lemma SoundCall(f: File, x: Io, fp: Option<nat>)
    requires Sound(f)
    requires match x
             case Opened(h) => f.fp == None && fp == Some(h)
             case Refused => f.fp == None == fp
             case Written(h, _) => f.fp == Some(h) == fp
             case Closed(h) => f.fp == Some(h) && fp == None
    ensures Sound(f.(io := f.io + [x], fp := fp,
                     failures := f.failures + if x.Refused? || (x.Written? && !x.ok) then 1 else 0))
  {
    var io := f.io + [x];
    assert io[..|f.io|] == f.io;
    forall j | 0 <= j < |io| ensures OpenAfter(io[..j]) == if io[j].Opened? || io[j].Refused? then {} else {io[j].h} {
      if j < |f.io| {
        assert io[..j] == f.io[..j];
      }
    }
  }

  lemma SoundOther(f: File, g: File)
    requires Sound(f) && g.io == f.io && g.fp == f.fp && g.failures == f.failures
    ensures Sound(g)
  {
  }

  lemma SoundLocked(f: File, a: Answer)
    requires Sound(f)
    ensures f.fp.None? ==> Sound(OpenLocked(f, a).0) && (OpenLocked(f, a).1 <==> OpenLocked(f, a).0.fp.Some?)
    ensures Sound(CloseLocked(f)) && CloseLocked(f).fp.None?
    ensures f.fp.Some? ==> Sound(WriteLocked(f, a)) && WriteLocked(f, a).fp == f.fp
  {
    hide Sound;
    if f.fp.None? {
      SoundCall(f, Opened(f.made), Some(f.made));
      SoundOther(f.(io := f.io + [Opened(f.made)], fp := Some(f.made)),
                 f.(fp := Some(f.made), made := f.made + 1, failureLogged := false, io := f.io + [Opened(f.made)]));
      SoundCall(f, Refused, None);
      SoundOther(f.(io := f.io + [Refused], fp := None, failures := f.failures + 1),
                 f.(fp := None, failures := f.failures + 1, failureLogged := true, io := f.io + [Refused]));
    } else {
      var h := f.fp.value;
      SoundCall(f, Closed(h), None);
      SoundCall(f, Written(h, a.fwrite), Some(h));
    }
  }

  lemma EnterKeeps(s: System, t: Tid, call: Call)
    requires Inv(s)
    ensures Inv(Entering(s, t, call))
  {
    hide Sound;
    var r := Entering(s, t, call);
    assert forall u: Tid :: u != t ==> r.PcOf(u) == s.PcOf(u);
    assert Locked(r);
    assert Usable(r);
  }

  lemma LockKeeps(s: System, t: Tid)
    requires Inv(s)
    ensures Inv(Locking(s, t))
  {
    hide Sound;
    var r := Locking(s, t);
    assert forall u: Tid :: u != t ==> r.PcOf(u) == s.PcOf(u);
    assert s.writer.None? ==> forall u: Tid :: !Writes(s.PcOf(u));
    assert s.readers == {} ==> forall u: Tid :: !Reads(s.PcOf(u));
    assert Locked(r);
    assert Usable(r);
  }

  /** The holder of the write lock is alone inside. */
  lemma WriterIsAlone(s: System, t: Tid)
    requires Locked(s) && Writes(s.PcOf(t))
    ensures forall u: Tid :: u != t ==> !Reads(s.PcOf(u)) && !Writes(s.PcOf(u))
  {
  }

  lemma GoKeeps(s: System, t: Tid, a: Answer)
    requires Inv(s)
    ensures Inv(Going(s, t, a))
  {
    hide Sound, OpenLocked, CloseLocked, WriteLocked, Locked;
    if Writes(s.PcOf(t)) {
      WriterIsAlone(s, t);
    }
    SoundLocked(s.file, a);
    GoLocked(s, t, a);
    var r := Going(s, t, a);
    assert forall u: Tid :: u != t ==> r.PcOf(u) == s.PcOf(u);
    assert Usable(r);
  }

  lemma GoLocked(s: System, t: Tid, a: Answer)
    requires Locked(s)
    ensures Locked(Going(s, t, a))
  {
    hide OpenLocked, CloseLocked, WriteLocked, Locked;
    var pc := s.PcOf(t);
    LockedReleases(s, t, WantWrite);
    LockedReleases(s, t, Idle);
    if !pc.Done? && !(pc.Reading? && s.file.fp.None?) {
      LockedMoves(s, Going(s, t, a), t);
    }
  }

  /** Moving on inside. */
  lemma LockedMoves(s: System, r: System, t: Tid)
    requires Locked(s) && r.readers == s.readers && r.writer == s.writer
    requires (r.pcs == s.pcs || r.pcs == s.pcs[t := r.PcOf(t)])
    requires Reads(r.PcOf(t)) == Reads(s.PcOf(t)) && Writes(r.PcOf(t)) == Writes(s.PcOf(t))
    ensures Locked(r)
  {
    hide Reads, Writes;
    assert forall u: Tid :: u != t ==> r.PcOf(u) == s.PcOf(u);
  }

  /** Leaving. */
  lemma LockedReleases(s: System, t: Tid, pc: Pc)
    requires Locked(s) && !Reads(pc) && !Writes(pc)
    ensures Locked(s.Unlock(t, pc))
  {
    hide Reads, Writes;
    var r := s.Unlock(t, pc);
    assert forall u: Tid :: u != t ==> r.PcOf(u) == s.PcOf(u);
  }

  lemma NextKeeps(s: System, step: Step)
    requires Inv(s)
    ensures Inv(Next(s, step))
  {
    hide Inv;
    match step {
      case Enter(t, call) => EnterKeeps(s, t, call);
      case Lock(t) => LockKeeps(s, t);
      case Go(t, a) => GoKeeps(s, t, a);
    }
  }

  lemma {:induction false} EveryRunKeeps(steps: seq<Step>)
    ensures Inv(Exec(steps))
  {
    hide Next, Inv;
    if steps == [] {
      assert Inv(Start) by { StartIsFine(); }
    } else {
      EveryRunKeeps(steps[..|steps| - 1]);
      NextKeeps(Exec(steps[..|steps| - 1]), steps[|steps| - 1]);
    }
  }

  lemma StartIsFine()
    ensures Inv(Start)
  {
  }

  /** In every interleaving: each fwrite and fclose meets the one open handle, each fopen
      meets none, opens minus closes is one exactly when `log_fp` is set, and every refused
      open and short write is counted once. */
  lemma HandlesAreDisciplined(steps: seq<Step>)
    ensures var f := Exec(steps).file;
            && Disciplined(f.io) && |OpenAfter(f.io)| <= 1
            && Opens(f.io) - Closes(f.io) == (if f.fp.Some? then 1 else 0)
            && f.failures == FailedCalls(f.io)
  {
    hide Exec, Disciplined;
    EveryRunKeeps(steps);
  }

  /** A thread about to write holds a lock, finds `log_fp` set, and that handle open; no
      other thread is then anywhere it could close it. */
  lemma WritersAreProtected(steps: seq<Step>, t: Tid)
    requires Exec(steps).PcOf(t).Ready?
    ensures var s := Exec(steps);
            && (t in s.readers || s.writer == Some(t))
            && s.file.fp.Some? && OpenAfter(s.file.io) == {s.file.fp.value}
            && (forall u: Tid :: u != t ==> !s.PcOf(u).Reopening? && !s.PcOf(u).Closing? && !s.PcOf(u).Opening?)
  {
    hide Exec, Disciplined;
    EveryRunKeeps(steps);
  }

  /** A thread that has not finished its call makes a step of it. */
  predicate Moves(s: System, t: Tid, a: Answer) {
    s.PcOf(t) != Idle && (Locking(s, t).PcOf(t) != s.PcOf(t) || Going(s, t, a).PcOf(t) != s.PcOf(t))
  }

  /** Giving up the read lock before taking the write lock cannot deadlock: while any call
      is unfinished, some thread in the middle of a call can make its next step, whatever
      the outside answers. */
  lemma SomeThreadCanMove(steps: seq<Step>, t: Tid, a: Answer)
    requires Exec(steps).PcOf(t) != Idle
    ensures exists u: Tid :: Moves(Exec(steps), u, a)
  {
    hide Exec, Sound;
    EveryRunKeeps(steps);
    var s := Exec(steps);
    var holder := if s.writer.Some? then s.writer.value else if s.readers != {} then AnyOf(s.readers) else t;
    HolderMoves(s, holder, a);
    assert Moves(s, holder, a);
  }

  ghost function AnyOf(xs: set<Tid>): (x: Tid)
    requires xs != {}
    ensures x in xs
  {
    var x :| x in xs; x
  }

  lemma HolderMoves(s: System, t: Tid, a: Answer)
    requires Inv(s) && s.PcOf(t) != Idle
    ensures Reads(s.PcOf(t)) || Writes(s.PcOf(t)) ==> Going(s, t, a).PcOf(t) != s.PcOf(t)
    ensures !Reads(s.PcOf(t)) && !Writes(s.PcOf(t)) && s.writer.None? && s.readers == {} ==> Locking(s, t).PcOf(t) != s.PcOf(t)
  {
    hide Sound, OpenLocked, CloseLocked, WriteLocked;
  }
}
