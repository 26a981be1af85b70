/** The reconciliation on small concrete inputs. */
module Scenarios {
  import opened Wrappers
  import opened ChangeOrder
  import opened Changes
  import opened ScriptRepository

  /** A script of the `v1.0` folder that has never been assigned a log row. */
  function Stub(n: int, name: string): ChangeScript {
    ChangeScript(ChangeKey("v1.0", n), name, 0)
  }

  /** Two stub scripts and an empty change log: both scripts are pending, in order. */
  lemma EmptyLogAppliesBothStubs()
    ensures PendingExecution(None, [Stub(1, "001_change.sql"), Stub(2, "002_change.sql")], [])
         == [Stub(1, "001_change.sql"), Stub(2, "002_change.sql")]
  {
  }

  /** Four new scripts and a cap at the second: exactly the first two are pending. */
  lemma CapStopsAtSecondOfFour()
    ensures PendingExecution(Some(ChangeKey("v1.0", 2)),
                             [Stub(1, "a"), Stub(2, "b"), Stub(3, "c"), Stub(4, "d")], [])
         == [Stub(1, "a"), Stub(2, "b")]
  {
  }

  /** Script 1 succeeded before; scripts 2 and 3 are new: only 2 and 3 are pending. */
  lemma SucceededScriptIsSkipped()
    ensures PendingExecution(None, [Stub(1, "a"), Stub(2, "b"), Stub(3, "c")],
                             [ChangeEntry(7, ChangeKey("v1.0", 1), OtherStatus(1), true)])
         == [Stub(2, "b"), Stub(3, "c")]
  {
  }

  /** Script 2 failed under log row 9: it is pending again and carries row 9. */
  lemma FailedScriptIsRerunWithItsRow()
    ensures PendingExecution(None, [Stub(1, "a"), Stub(2, "b")],
                             [ChangeEntry(9, ChangeKey("v1.0", 2), Failure, false)])
         == [Stub(1, "a"), Stub(2, "b").(changeId := 9)]
  {
  }

  /** Scripts out of order end the walk early: with the cap at 2, script 3 comes
      first and stops the walk, so script 1 is never reached although it lies
      within the cap. */
  lemma UnsortedInputStopsEarly()
    ensures PendingExecution(Some(ChangeKey("v1.0", 2)), [Stub(3, "c"), Stub(1, "a")], []) == []
    ensures FilterWithinCap(Candidates([], [Stub(3, "c"), Stub(1, "a")]), ChangeKey("v1.0", 2))
         == [Stub(1, "a")]
  {
  }
}
