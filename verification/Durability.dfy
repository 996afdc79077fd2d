/** The step machine's crash, the log file's bytes and recovery, end to end. */
module Durability {
  import opened Base
  import opened Log
  import opened Recovery
  import opened Engine
  import opened EngineTheorems
  import opened Wal

  /** After any run the process dies while it appends `r`, `cut` bytes of whose header reached the
      file. Reopening reads the file back and recovers exactly the committed store, under exactly
      the conditions of the crash theorem. */
  lemma RecoveryFromFile(m: Store, steps: seq<Step>, r: Record, cut: nat)
    requires ValidRun(Opened(m), steps) && cut < HEADER && Storable(r)
    requires forall x :: x in Run(Opened(m), steps).log ==> Storable(x)
    ensures var s := Run(Opened(m), steps);
            var read := ReadAll(EncodeAll(s.log) + Encode(r)[..cut]);
            read.Success? && (Recovered(s.disk, read.value) == CommittedStore(s) <==> UndoneOnDisk(s) && NoEmptyValue(s))
  {
    hide ValidRun, ReadAll, EncodeAll, Encode, Recovered, UndoneOnDisk, NoEmptyValue, Storable;
    var s := Run(Opened(m), steps);
    EncodedSize(r);
    TornTail(s.log, r, cut);
    CrashRecovery(m, steps);
  }

  lemma EncodedSize(r: Record)
    ensures |Encode(r)| >= HEADER
  {
  }
}
