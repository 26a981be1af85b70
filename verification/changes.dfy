/** The two records the reconciliation works on: a change script offered by the
    script provider, and a change entry read from the change log. */
module Changes {
  import opened ChangeOrder

  /** Identifier of a change-log row. A rerun script carries the identifier of the
      row it will update instead of inserting a new one. */
  type ChangeId = int

  /** Execution status recorded in the change log. Only `Failure` is inspected by
      the reconciliation; every other status is kept apart by its code. */
  datatype ScriptStatus = Failure | OtherStatus(code: nat)

  datatype ChangeScript = ChangeScript(key: ChangeKey, scriptName: string, changeId: ChangeId)

  /** An applied change. `executedSuccessfully` is the entry's own verdict on its
      run; how it derives from `status` is not part of this model. */
  datatype ChangeEntry = ChangeEntry(
    changeId: ChangeId,
    key: ChangeKey,
    status: ScriptStatus,
    executedSuccessfully: bool)

  /** A failed entry never claims a successful run. */
  predicate ConsistentStatus(e: ChangeEntry) {
    e.status == Failure ==> !e.executedSuccessfully
  }

  /** The identities of a sequence of scripts, in order. */
  function Keys(scripts: seq<ChangeScript>): seq<ChangeKey> {
    seq(|scripts|, i requires 0 <= i < |scripts| => scripts[i].key)
  }
}
