/** Where the archive step of DeliveryRuns is taken among the steps of ChatStore. */
module DeliverySteps {
  import opened Bytes
  import opened ChatFile
  import opened ChatStore
  import DeliveryRuns

  /** The chat as the send of this holder found it: one message less, nothing archived since. */
  predicate FoundBy(d: DeliveryRuns.State, s: Store) {
    d.total + 1 == |s.history| && d.cut == s.cut
  }

  /**
   * Behind the rename of the live file, a new archive file can be put in place exactly when the live file has
   * more than 2000 messages, and those are the sends for which DeliveryRuns takes an archive step.
   */
  lemma ArchiveDue(s: Store, id: nat, name: string, stamp: string, d: DeliveryRuns.State, step: DeliveryRuns.Step)
    requires Inv(s) && id in s.calls && s.calls[id].phase.Committed? && FoundBy(d, s)
    requires name !in s.archives && LegalField(stamp)
    ensures Next(s, id, RenameArchive(name, stamp)).Some? <==> |s.history| - s.cut > 2000
    ensures DeliveryRuns.Archives(d, step) <==> |s.history| - s.cut > 2000 && step != DeliveryRuns.Abandoned
  {
    hide ChatOk, ArchivesOk, OwnersOk, HolderOk, LegalField, ArchiveText;
    KeptLines(s, s.calls[id]);
  }

  /** The rename of the trimmed file then leaves the chat that the archive step of DeliveryRuns leaves. */
  lemma TrimIsArchiveStep(s: Store, id: nat, t: Store, d: DeliveryRuns.State, step: DeliveryRuns.Step)
    requires Inv(s) && Next(s, id, RenameTrim) == Some(t) && FoundBy(d, s) && step != DeliveryRuns.Abandoned
    ensures DeliveryRuns.Archives(d, step)
    ensures DeliveryRuns.AfterPost(d, step).total == |t.history| && DeliveryRuns.AfterPost(d, step).cut == t.cut
    ensures t.cut == s.cut + 1000
  {
    hide ChatOk, ArchivesOk, OwnersOk;
    HolderIs(s, id);
    TrimFields(s, id, t);
  }
}
