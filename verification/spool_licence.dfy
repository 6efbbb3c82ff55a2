/** One acknowledgement, one file: what the acknowledgement reader checks, what the
  * file name carries and what the pipeline calls a licence are the same thing.
  */
module SpoolLicence {
  import opened Bytes
  import SpoolNames
  import IngestAcks
  import Pipeline = TelemetryPipeline

  /** What uploadOneTelemetryEnvelope() passes to parseIngestAck(). */
  function ExpectedOf(m: SpoolNames.Batch): IngestAcks.Expected {
    IngestAcks.Expected(SpoolNames.BatchId(m), m.recordCount, m.maxSequence)
  }

  predicate Licenses(response: string, m: SpoolNames.Batch) {
    IngestAcks.Parse(response, ExpectedOf(m)).Accepted?
  }

  /** No response can license the deletion of two different spool files. */
  lemma OneResponseOneFile(response: string, a: SpoolNames.Batch, b: SpoolNames.Batch)
    requires a.IsValid() && b.IsValid()
    ensures Licenses(response, a) && Licenses(response, b) ==> a == b
  {
    hide SpoolNames.Fields, IngestAcks.Parse;
    IngestAcks.LicensesOneBatchOnly(response, ExpectedOf(a), ExpectedOf(b));
    if ExpectedOf(a) == ExpectedOf(b) {
      assert SpoolNames.BatchId(a)[2..] == SpoolNames.Fields(a, ":");
      assert SpoolNames.BatchId(b)[2..] == SpoolNames.Fields(b, ":");
      SpoolNames.FieldsOrder(a, b, ":", "");
    }
  }

  // -------------------------------------------- the pipeline's acknowledgements

  /** The random boot ids of a device, in order: they do not repeat. */
  ghost predicate Numbering(ids: nat -> string) {
    (forall b :: BootId(ids(b))) && (forall a, b :: ids(a) == ids(b) ==> a == b)
  }

  function FileOf(ids: nat -> string, n: Pipeline.Name): SpoolNames.Batch {
    SpoolNames.Batch(ids(n.boot), n.first, n.last, n.count)
  }

  /** The response spells an acknowledgement with these members. */
  ghost predicate Spells(response: string, ms: seq<IngestAcks.Member>) {
    exists lead, trail ::
      && IngestAcks.Spaces(lead) && IngestAcks.Spaces(trail) && |ms| == 6 && IngestAcks.AllValid(ms)
      && IngestAcks.Distinct(ms) && response == IngestAcks.SpellAck(lead, ms, trail)
  }

  /** The response says what `a` says, with the counts in the server's range. */
  ghost predicate Says(ids: nat -> string, response: string, a: Pipeline.Ack) {
    exists ms :: Spells(response, ms) && IngestAcks.Confirms(ms, ExpectationOf(ids, a))
  }

  function ExpectationOf(ids: nat -> string, a: Pipeline.Ack): IngestAcks.Expected {
    IngestAcks.Expected(SpoolNames.BatchId(FileOf(ids, a.batch)), a.count, a.maxSequence)
  }

  lemma SaysIsAccepted(ids: nat -> string, response: string, a: Pipeline.Ack)
    ensures Says(ids, response, a) <==> IngestAcks.Parse(response, ExpectationOf(ids, a)).Accepted?
  {
    hide IngestAcks.Parse, IngestAcks.Confirms, IngestAcks.AllValid, IngestAcks.SpellAck;
    var e := ExpectationOf(ids, a);
    if IngestAcks.Parse(response, e).Accepted? {
      IngestAcks.AcceptsExactlyTheAcknowledgements(response, e, IngestAcks.Parse(response, e).ack);
    }
    if ms :| Spells(response, ms) && IngestAcks.Confirms(ms, e) {
      IngestAcks.AcceptsExactlyTheAcknowledgements(response, e, IngestAcks.AckOf(ms));
    }
  }

  /** Whatever acknowledgement a response spells, the reader takes it for a file
    * exactly when that acknowledgement licenses the file's name. */
  lemma ReaderDecidesTheLicence(ids: nat -> string, response: string, a: Pipeline.Ack, n: Pipeline.Name)
    requires Numbering(ids) && FileOf(ids, n).IsValid() && FileOf(ids, a.batch).IsValid()
    requires Says(ids, response, a)
    ensures Licenses(response, FileOf(ids, n)) <==> Pipeline.Licenses(a, n)
  {
    hide IngestAcks.Parse, SpoolNames.Fields, Says;
    SaysIsAccepted(ids, response, a);
    if Licenses(response, FileOf(ids, n)) {
      IngestAcks.LicensesOneBatchOnly(response, ExpectedOf(FileOf(ids, n)), ExpectationOf(ids, a));
      assert SpoolNames.BatchId(FileOf(ids, n))[2..] == SpoolNames.Fields(FileOf(ids, n), ":");
      assert SpoolNames.BatchId(FileOf(ids, a.batch))[2..] == SpoolNames.Fields(FileOf(ids, a.batch), ":");
      SpoolNames.FieldsOrder(FileOf(ids, n), FileOf(ids, a.batch), ":", "");
    }
  }

  /** The response is one that the server sent, unaltered. */
  ghost predicate Delivered(ids: nat -> string, acks: set<Pipeline.Ack>, response: string) {
    exists a :: a in acks && Says(ids, response, a)
  }

  /** Sequence numbers fit the 64 bits that a file name has for them. */
  ghost predicate SequencesFit(log: seq<Pipeline.Entry>) {
    forall e :: e in log ==> e.record.sequence < U64_LIMIT
  }

  lemma BatchFileIsValid(ids: nat -> string, log: seq<Pipeline.Entry>, n: Pipeline.Name, c: seq<Pipeline.Entry>)
    requires Numbering(ids) && Pipeline.Ordered(log) && SequencesFit(log) && Pipeline.IsBatch(log, n, c)
    ensures FileOf(ids, n).IsValid()
  {
    var i: nat :| Pipeline.BatchAt(log, n, c, i);
    var last := |c| - 1;
    assert log[i] == c[0] && log[i + last] == c[last];
    assert c[last].boot == c[0].boot;
    assert BootId(ids(n.boot));
  }

  /** A file is deleted on the bytes of a response; when it is, the server holds
    * every record of it. */
  lemma DeletedOnlyWhenStored(ids: nat -> string, steps: seq<Pipeline.Step>, response: string, n: Pipeline.Name)
    requires Numbering(ids)
    ensures var s := Pipeline.Run(Pipeline.InitialState(), steps);
            (&& SequencesFit(s.log) && n in s.spool && Delivered(ids, s.acks, response)
             && Licenses(response, FileOf(ids, n))) ==>
              && Pipeline.Enabled(s, Pipeline.Remove(n, Pipeline.Ack(n, n.count, n.last), true))
              && Pipeline.HoldsAll(s.server, s.spool[n])
  {
    hide Licenses, Says, Pipeline.Run, Pipeline.IsBatch, Pipeline.LogInv;
    var s := Pipeline.Run(Pipeline.InitialState(), steps);
    if && SequencesFit(s.log) && n in s.spool && Delivered(ids, s.acks, response)
       && Licenses(response, FileOf(ids, n)) {
      Pipeline.RunKeepsInvariant(steps);
      assert Pipeline.Ordered(s.log) by { LogIsOrdered(s); }
      var a :| a in s.acks && Says(ids, response, a);
      var c :| c != [] && Pipeline.IsBatch(s.log, a.batch, c) && a == Pipeline.AckOf(c)
               && Pipeline.HoldsAll(s.server, c);
      BatchFileIsValid(ids, s.log, n, s.spool[n]);
      BatchFileIsValid(ids, s.log, a.batch, c);
      ReaderDecidesTheLicence(ids, response, a, n);
      Pipeline.NameDeterminesContent(s.log, n, s.spool[n], c);
    }
  }

  lemma LogIsOrdered(s: Pipeline.State)
    requires Pipeline.LogInv(s.log, s.boot, s.nextSequence, s.queue)
    ensures Pipeline.Ordered(s.log)
  {
  }
}
