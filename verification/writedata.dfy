/**
 `write_data` (trimeol.py) over an abstract file system: a map from path to
 text. The write goes through a temporary sibling `destination + ".tmp"`:
 create it, write the data, sync it, remove the destination, rename the
 temporary file onto the destination. Each step may fail; the fault to
 inject is a parameter.
 */
module AtomicWrite {

  type Path = string

  /** The files that exist and their contents. */
  type FileSystem = map<Path, string>

  /** The temporary file the data is written to first. */
  function TmpPath(dest: Path): (tmp: Path)
    ensures tmp != dest
    ensures |tmp| == |dest| + 4 && tmp[..|dest|] == dest
  {
    dest + ".tmp"
  }

  /** Which step fails, if any. A failing write leaves the first `written`
      characters of the data in the temporary file. Removing a destination
      that does not exist fails without any injected fault. */
  datatype Fault = NoFault | OpenFails | WriteFails(written: nat) | SyncFails | RemoveFails | RenameFails

  /** The step the writer is about to take, or where it stopped. */
  datatype Phase =
    | Opening | Writing | Syncing | Removing | Renaming
    | Succeeded
    | FailedAt(step: Phase)
  {
    predicate Terminal()
    {
      Succeeded? || FailedAt?
    }

    /** Steps still to take. */
    function Rank(): nat
    {
      match this
      case Opening => 5
      case Writing => 4
      case Syncing => 3
      case Removing => 2
      case Renaming => 1
      case _ => 0
    }
  }

  datatype Machine = Machine(phase: Phase, fs: FileSystem)

  /** One step of `write_data`. */
  function Step(m: Machine, data: string, dest: Path, fault: Fault): (m': Machine)
    requires !m.phase.Terminal()
    ensures m'.phase.Rank() < m.phase.Rank()
  {
    var tmp := TmpPath(dest);
    match m.phase
    case Opening =>
      if fault == OpenFails then Machine(FailedAt(Opening), m.fs)
      else Machine(Writing, m.fs[tmp := ""])
    case Writing =>
      if fault.WriteFails? then
        var n := if fault.written < |data| then fault.written else |data|;
        Machine(FailedAt(Writing), m.fs[tmp := data[..n]])
      else Machine(Syncing, m.fs[tmp := data])
    case Syncing =>
      if fault == SyncFails then Machine(FailedAt(Syncing), m.fs)
      else Machine(Removing, m.fs)
    case Removing =>
      if fault == RemoveFails || dest !in m.fs then Machine(FailedAt(Removing), m.fs)
      else Machine(Renaming, m.fs - {dest})
    case Renaming =>
      if fault == RenameFails || tmp !in m.fs then Machine(FailedAt(Renaming), m.fs)
      else Machine(Succeeded, (m.fs - {tmp})[dest := m.fs[tmp]])
  }

  /** Steps until the writer succeeds or fails. */
  function Run(m: Machine, data: string, dest: Path, fault: Fault): (m': Machine)
    ensures m'.phase.Terminal()
    decreases m.phase.Rank()
  {
    if m.phase.Terminal() then m else Run(Step(m, data, dest, fault), data, dest, fault)
  }

  /** Paths other than the destination and the temporary file are as in `fs0`. */
  predicate OthersUnchanged(fs0: FileSystem, fs: FileSystem, dest: Path)
  {
    fs - {dest, TmpPath(dest)} == fs0 - {dest, TmpPath(dest)}
  }

  /** The destination exists in `fs` exactly when it did in `fs0`, with the same content. */
  predicate DestUnchanged(fs0: FileSystem, fs: FileSystem, dest: Path)
  {
    (dest in fs <==> dest in fs0) && (dest in fs ==> fs[dest] == fs0[dest])
  }

  /** What holds in every phase of a write of `data` to `dest` started on `fs0`:
      the destination holds its old content until it is removed, is absent
      only while the temporary file holds the complete data, and afterwards
      holds the data. It never holds anything else. */
  predicate Inv(fs0: FileSystem, data: string, dest: Path, m: Machine)
  {
    var tmp := TmpPath(dest);
    && OthersUnchanged(fs0, m.fs, dest)
    && match m.phase
       case Opening => m.fs == fs0
       case Writing => DestUnchanged(fs0, m.fs, dest) && tmp in m.fs
       case Syncing => DestUnchanged(fs0, m.fs, dest) && tmp in m.fs && m.fs[tmp] == data
       case Removing => DestUnchanged(fs0, m.fs, dest) && tmp in m.fs && m.fs[tmp] == data
       case Renaming => dest !in m.fs && tmp in m.fs && m.fs[tmp] == data
       case Succeeded => dest in m.fs && m.fs[dest] == data && tmp !in m.fs
       case FailedAt(step) =>
         if step == Renaming then dest !in m.fs && tmp in m.fs && m.fs[tmp] == data
         else DestUnchanged(fs0, m.fs, dest)
  }

  lemma StepKeepsInv(fs0: FileSystem, data: string, dest: Path, fault: Fault, m: Machine)
    requires !m.phase.Terminal() && Inv(fs0, data, dest, m)
    ensures Inv(fs0, data, dest, Step(m, data, dest, fault))
  {
    var tmp := TmpPath(dest);
    var m' := Step(m, data, dest, fault);
    assert m'.fs - {dest, tmp} == m.fs - {dest, tmp};
  }

  lemma {:induction false} RunKeepsInv(fs0: FileSystem, data: string, dest: Path, fault: Fault, m: Machine)
    requires Inv(fs0, data, dest, m)
    ensures Inv(fs0, data, dest, Run(m, data, dest, fault))
    decreases m.phase.Rank()
  {
    if !m.phase.Terminal() {
      StepKeepsInv(fs0, data, dest, fault, m);
      RunKeepsInv(fs0, data, dest, fault, Step(m, data, dest, fault));
    }
  }

  /** Where a write started with `fault` stops: at the injected fault, or at
      the removal when the destination does not exist. */
  function StopPhase(fault: Fault, destExists: bool): Phase
  {
    match fault
    case OpenFails => FailedAt(Opening)
    case WriteFails(_) => FailedAt(Writing)
    case SyncFails => FailedAt(Syncing)
    case RemoveFails => FailedAt(Removing)
    case _ =>
      if !destExists then FailedAt(Removing)
      else if fault == RenameFails then FailedAt(Renaming)
      else Succeeded
  }

  lemma RunStops(fs: FileSystem, data: string, dest: Path, fault: Fault)
    ensures Run(Machine(Opening, fs), data, dest, fault).phase == StopPhase(fault, dest in fs)
  {
    var m0 := Machine(Opening, fs);
    var m1 := Step(m0, data, dest, fault);
    assert Run(m0, data, dest, fault) == Run(m1, data, dest, fault);
    if !m1.phase.Terminal() {
      var m2 := Step(m1, data, dest, fault);
      assert Run(m1, data, dest, fault) == Run(m2, data, dest, fault);
      if !m2.phase.Terminal() {
        var m3 := Step(m2, data, dest, fault);
        assert Run(m2, data, dest, fault) == Run(m3, data, dest, fault);
        assert dest in m3.fs <==> dest in fs;
        if !m3.phase.Terminal() {
          var m4 := Step(m3, data, dest, fault);
          assert Run(m3, data, dest, fault) == Run(m4, data, dest, fault);
          if !m4.phase.Terminal() {
            var m5 := Step(m4, data, dest, fault);
            assert Run(m4, data, dest, fault) == m5;
          }
        }
      }
    }
  }

  /** Result of `write_data`: its return code (0 or -1) and the file system after it. */
  datatype Effect = Effect(status: int, fs: FileSystem)

  /** `write_data(data, destination)`. */
  function WriteData(fs: FileSystem, data: string, dest: Path, fault: Fault): (e: Effect)
    ensures e.status == 0 || e.status == -1
    ensures e.status == 0 <==> fault == NoFault && dest in fs
    ensures OthersUnchanged(fs, e.fs, dest)
    ensures e.status == 0 ==> dest in e.fs && e.fs[dest] == data && TmpPath(dest) !in e.fs
    ensures (fault != RenameFails || dest !in fs) && e.status != 0 ==> DestUnchanged(fs, e.fs, dest)
    ensures fault == RenameFails && dest in fs ==>
      dest !in e.fs && TmpPath(dest) in e.fs && e.fs[TmpPath(dest)] == data
  {
    var m := Run(Machine(Opening, fs), data, dest, fault);
    RunKeepsInv(fs, data, dest, fault, Machine(Opening, fs));
    RunStops(fs, data, dest, fault);
    Effect(if m.phase == Succeeded then 0 else -1, m.fs)
  }

  /** A successful write replaces the destination, drops the temporary file
      and touches nothing else: the result is exactly `fs` so updated. */
  lemma WriteDataSuccess(fs: FileSystem, data: string, dest: Path)
    requires dest in fs
    ensures WriteData(fs, data, dest, NoFault).fs == (fs - {TmpPath(dest)})[dest := data]
  {
    var e := WriteData(fs, data, dest, NoFault);
    var want := (fs - {TmpPath(dest)})[dest := data];
    var tmp := TmpPath(dest);
    forall k
      ensures (k in e.fs <==> k in want) && (k in e.fs ==> e.fs[k] == want[k])
    {
      if k != dest && k != tmp {
        assert k in e.fs <==> k in e.fs - {dest, tmp};
        assert k in fs <==> k in fs - {dest, tmp};
      }
    }
  }
}
