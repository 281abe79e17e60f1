// From a filled buffer to the nonce that is submitted.
module Hasher {
  import opened Wrappers
  import opened Words
  import opened Layout
  import opened Scoops
  import opened ProofQuality
  import opened Quality
  import opened BestQuality
  import opened Plots
  import opened Cpu

  datatype Submission = Submission(payload: Payload, seed: Seed, nonce: U64, height: nat, gensig: Seed,
                                   rawQuality: U64, compression: nat)

  // A validator recomputing the proof from nothing but the submission finds the claimed quality.
  ghost predicate Validates(s: Submission) {
    s.rawQuality == ProofQualityOf(s.payload, s.seed, s.nonce, s.compression, ScoopNumber(s.height, s.gensig), s.gensig)
  }

  // The quality of what the buffer holds at offset o.
  function HeldQuality(reply: ReadReply, gensig: Seed, o: nat): U64
    requires 16 * o + 16 <= |reply.buffer|
  {
    QualityOf(ScoopAt(reply.buffer, o), GensigWords(gensig))
  }

  // The offset of a buffer that a submission is from.
  ghost predicate IsFrom(s: Submission, reply: ReadReply, o: nat) {
    && o < reply.numberOfWarps * NUM_SCOOPS && 16 * o + 16 <= |reply.buffer|
    && (s.payload, s.seed, s.compression) == (reply.payload, reply.seed, reply.compressionLevel)
    && s.nonce == NonceAt(reply, o) && s.rawQuality == HeldQuality(reply, s.gensig, o)
  }

  // The submission is from the buffer, and nothing in the buffer has a lower quality.
  ghost predicate BestOf(s: Submission, reply: ReadReply) {
    && 16 * (reply.numberOfWarps * NUM_SCOOPS) <= |reply.buffer|
    && (exists o: nat :: IsFrom(s, reply, o))
    && forall o :: 0 <= o < reply.numberOfWarps * NUM_SCOOPS ==> s.rawQuality <= HeldQuality(reply, s.gensig, o)
  }

  // The number under which the nonce at offset o is submitted; it wraps at 64 bits.
  function NonceAt(reply: ReadReply, o: nat): U64 {
    Mod64(Mod64(reply.warpOffset * NUM_SCOOPS) + o)
  }

  // Searches the buffer and gives it back.
  method CalcQualities(cpu: Features, reply: ReadReply, height: nat, gensig: Seed)
    returns (s: Submission, freed: seq<Word>)
    requires 16 * (reply.numberOfWarps * NUM_SCOOPS) <= |reply.buffer|
    ensures s.height == height && s.gensig == gensig
    ensures freed == reply.buffer
    ensures reply.numberOfWarps > 0 ==> BestOf(s, reply)
  {
    hide Best, Qualities, QualityOf, ScoopNumber, GensigWords, Mod64;
    var n := reply.numberOfWarps * NUM_SCOOPS;
    var rawQuality, offset := FindBestQuality(cpu, reply.buffer, n, GensigWords(gensig));
    var startNonce := Mod64(reply.warpOffset * NUM_SCOOPS);
    s := Submission(reply.payload, reply.seed, Mod64(startNonce + offset), height, gensig,
                    rawQuality, reply.compressionLevel);
    freed := reply.buffer;
    if n > 0 {
      BestIsFirstMinimum(Qualities(reply.buffer, n, GensigWords(gensig)));
      forall o | 0 <= o < n
        ensures Qualities(reply.buffer, n, GensigWords(gensig))[o] == HeldQuality(reply, gensig, o)
      {
        QualityAt(reply.buffer, n, GensigWords(gensig), o);
      }
      assert IsFrom(s, reply, offset);
    }
  }

  lemma QualityAt(data: seq<Word>, n: nat, gensig: seq<Word>, o: nat)
    requires 16 * n <= |data| && o < n
    ensures Qualities(data, n, gensig)[o] == QualityOf(ScoopAt(data, o), gensig)
  {
    hide QualityOf;
  }

  // The quality of a genuine nonce is that of its proof.
  lemma GenuineQuality(reply: ReadReply, height: nat, gensig: Seed, o: nat)
    requires GenuineNonce(reply, ScoopNumber(height, gensig), o)
    ensures HeldQuality(reply, gensig, o)
         == ProofQualityOf(reply.payload, reply.seed, NonceAt(reply, o), reply.compressionLevel,
                           ScoopNumber(height, gensig), gensig)
  {
    hide ScoopNumber, GensigWords, QualityOf, AtLevel, NonceAt;
    SubmittedLevel(reply, ScoopNumber(height, gensig), o);
  }

  // A submission from a genuine nonce validates.
  lemma BestValidates(reply: ReadReply, s: Submission, o: nat)
    requires IsFrom(s, reply, o) && GenuineNonce(reply, ScoopNumber(s.height, s.gensig), o)
    ensures Validates(s)
  {
    hide ScoopNumber, ProofQualityOf, HeldQuality, NonceAt;
    GenuineQuality(reply, s.height, s.gensig, o);
  }

  // No genuine nonce of its buffer would have made a better one.
  lemma NoneBetter(reply: ReadReply, s: Submission, o: nat)
    requires BestOf(s, reply) && o < reply.numberOfWarps * NUM_SCOOPS
    requires GenuineNonce(reply, ScoopNumber(s.height, s.gensig), o)
    ensures s.rawQuality <= ProofQualityOf(reply.payload, reply.seed, NonceAt(reply, o), reply.compressionLevel,
                                           ScoopNumber(s.height, s.gensig), s.gensig)
  {
    hide ScoopNumber, ProofQualityOf, HeldQuality, NonceAt;
    GenuineQuality(reply, s.height, s.gensig, o);
  }

  // Wrapping the number of a nonce does not change the proof.
  lemma SubmittedLevel(reply: ReadReply, scoop: nat, o: nat)
    ensures AtLevel(RawOf(reply.payload, reply.seed), scoop, NonceAt(reply, o), reply.compressionLevel)
         == AtLevel(RawOf(reply.payload, reply.seed), scoop, reply.warpOffset * NUM_SCOOPS + o, reply.compressionLevel)
  {
    hide AtLevel, RawOf, Mod64;
    Mod64Again(reply.warpOffset * NUM_SCOOPS, o);
    LevelWraps(reply.payload, reply.seed, scoop, reply.warpOffset * NUM_SCOOPS + o, reply.compressionLevel);
  }

  // The buffers that a scan hands on.
  function Replies(events: seq<Event>): seq<ReadReply> {
    if |events| == 0 then []
    else
      var e := events[|events| - 1];
      Replies(events[..|events| - 1]) + if e.Data? then [e.reply] else []
  }

  // One submission for every buffer, in order: the best nonce of that buffer.
  ghost predicate Answers(submissions: seq<Submission>, replies: seq<ReadReply>) {
    && |submissions| == |replies|
    && forall j :: 0 <= j < |submissions| ==> BestOf(submissions[j], replies[j])
  }

  ghost predicate AllValidate(submissions: seq<Submission>, height: nat, gensig: Seed) {
    forall j :: 0 <= j < |submissions| ==>
      submissions[j].height == height && submissions[j].gensig == gensig && Validates(submissions[j])
  }

  ghost predicate AllSized(events: seq<Event>) {
    forall i :: 0 <= i < |events| && events[i].Data? ==> Sized(events[i].reply)
  }

  ghost predicate Sized(reply: ReadReply) {
    0 < reply.numberOfWarps && 16 * (reply.numberOfWarps * NUM_SCOOPS) <= |reply.buffer|
  }

  ghost predicate AllFor(submissions: seq<Submission>, height: nat, gensig: Seed) {
    forall j :: 0 <= j < |submissions| ==> submissions[j].height == height && submissions[j].gensig == gensig
  }

  // The collector of a scan hands every buffer to a hasher: every buffer is answered by the best
  // that it holds, and is given back.
  method HashScan(cpu: Features, events: seq<Event>, height: nat, gensig: Seed)
    returns (submissions: seq<Submission>, freed: seq<seq<Word>>)
    requires AllSized(events)
    ensures AllFor(submissions, height, gensig) && Answers(submissions, Replies(events))
    ensures |freed| == |Replies(events)|
    ensures forall j :: 0 <= j < |freed| ==> freed[j] == Replies(events)[j].buffer
  {
    hide BestOf;
    submissions, freed := [], [];
    for n := 0 to |events|
      invariant AllFor(submissions, height, gensig)
      invariant Answers(submissions, Replies(events[..n]))
      invariant |freed| == |Replies(events[..n])|
      invariant forall j :: 0 <= j < |freed| ==> freed[j] == Replies(events[..n])[j].buffer
    {
      assert events[..n + 1][..n] == events[..n];
      if events[n].Data? {
        assert Sized(events[n].reply);
        var s, buffer := CalcQualities(cpu, events[n].reply, height, gensig);
        submissions, freed := submissions + [s], freed + [buffer];
      }
    }
    assert events[..|events|] == events;
  }

  // Scanning a disk for a block: every submission is the best of a buffer, and validates if the
  // file is genuine in all that its nonce is folded from, whatever the compression steps, the buffer size,
  // the vector width, and wherever an interrupt or a read error cuts the scan short. Every buffer taken is
  // given back by reader or hasher.
  method MineDisk(cpu: Features, plots: seq<PlotFile>, cap: nat, config: Option<CompressionConfig>, height: nat,
                  gensig: Seed)
    returns (submissions: seq<Submission>, freed: seq<seq<Word>>, interrupted: bool, ghost events: seq<Event>)
    requires Distinct(plots) && Ready(plots, cap) && GoodConfig(config, cap)
    modifies plots
    ensures Ready(plots, cap)
    ensures AllFor(submissions, height, gensig)
    ensures Answers(submissions, Replies(events)) && PhaseOf(events) == Over
    ensures |freed| == |Replies(events)| && Held(events) == 0
    ensures forall j :: 0 <= j < |submissions| ==> MinedFrom(submissions[j], plots, config)
    ensures GenuineFiles(plots, config, ScoopNumber(height, gensig)) ==> AllValidate(submissions, height, gensig)
  {
    hide ScoopNumber, GenuineFiles, GoodConfig, Distinct, TookTurns, AllValidate, Answers, AllSized, AllFor, Replies,
        MinedFrom;
    ghost var was := Progress(plots);
    var scoop := CalculateScoop(height, gensig);
    var seen, stopped, turns := ReadDisk(cpu, plots, cap, config, scoop);
    RepliesOfDisk(plots, turns, was, Progress(plots), cap, config, scoop);
    LastReply(AllEvents(turns), if stopped then [] else [ScanFinished]);
    SizedReplies(AllEvents(turns) + if stopped then [] else [ScanFinished], plots, config, scoop);
    submissions, freed := HashScan(cpu, seen, height, gensig);
    Mined(plots, config, submissions, Replies(seen), height, gensig);
    if GenuineFiles(plots, config, scoop) {
      MinedValidate(plots, config, submissions, height, gensig);
    }
    interrupted, events := stopped, seen;
  }

  lemma LastReply(events: seq<Event>, last: seq<Event>)
    requires last == [] || last == [ScanFinished]
    ensures Replies(events + last) == Replies(events)
  {
    if last == [] {
      assert events + last == events;
    } else {
      assert (events + last)[..|events|] == events;
    }
  }

  // ----- where submissions come from -----

  // Some file of the disk has this account and seed, the level at which the chain has it mined, and
  // this nonce, which validates if all that it is folded from is genuine.
  ghost predicate MinedFrom(s: Submission, plots: seq<PlotFile>, config: Option<CompressionConfig>) {
    exists i, nonce :: 0 <= i < |plots| && MinedAt(s, plots[i], config, nonce)
  }

  ghost predicate MinedAt(s: Submission, plot: PlotFile, config: Option<CompressionConfig>, nonce: nat) {
    && FromFile(s.payload, s.seed, s.compression, plot, config) && s.nonce == Mod64(nonce)
    && (Foldable(plot, config) ==>
          && (nonce / NUM_SCOOPS + 1) * GroupSize(plot, config) <= plot.warps
          && (GenuineGroup(plot, ScoopNumber(s.height, s.gensig), GroupSize(plot, config), nonce) ==> Validates(s)))
  }

  ghost predicate FromFile(payload: Payload, seed: Seed, level: nat, plot: PlotFile,
                           config: Option<CompressionConfig>) {
    (payload, seed, level) == (plot.payload, plot.seed, ReportedLevel(plot, config))
  }

  ghost predicate ReplyFrom(reply: ReadReply, plots: seq<PlotFile>, config: Option<CompressionConfig>, scoop: nat) {
    exists i :: 0 <= i < |plots| && ReplyOf(reply, plots[i], config, scoop)
  }

  // A buffer of this file that has been handed on.
  ghost predicate ReplyOf(reply: ReadReply, plot: PlotFile, config: Option<CompressionConfig>, scoop: nat) {
    && LabelledReply(reply, plot, ReportedLevel(plot, config))
    && (Foldable(plot, config) ==> FaithfulReply(reply, plot, scoop, GroupSize(plot, config)))
  }

  ghost predicate AllFrom(replies: seq<ReadReply>, plots: seq<PlotFile>, config: Option<CompressionConfig>,
                          scoop: nat) {
    forall j :: 0 <= j < |replies| ==> ReplyFrom(replies[j], plots, config, scoop)
  }

  lemma Mined(plots: seq<PlotFile>, config: Option<CompressionConfig>, submissions: seq<Submission>,
              replies: seq<ReadReply>, height: nat, gensig: Seed)
    requires AllFrom(replies, plots, config, ScoopNumber(height, gensig))
    requires Answers(submissions, replies) && AllFor(submissions, height, gensig)
    ensures forall j :: 0 <= j < |submissions| ==> MinedFrom(submissions[j], plots, config)
  {
    hide ReplyOf, BestOf, IsFrom, MinedAt, ScoopNumber;
    forall j | 0 <= j < |submissions|
      ensures MinedFrom(submissions[j], plots, config)
    {
      var s, r := submissions[j], replies[j];
      assert BestOf(s, r) && ReplyFrom(r, plots, config, ScoopNumber(height, gensig));
      var i :| 0 <= i < |plots| && ReplyOf(r, plots[i], config, ScoopNumber(height, gensig));
      MinedOne(s, r, plots[i], config);
    }
  }

  lemma MinedOne(s: Submission, reply: ReadReply, plot: PlotFile, config: Option<CompressionConfig>)
    requires BestOf(s, reply) && ReplyOf(reply, plot, config, ScoopNumber(s.height, s.gensig))
    ensures exists nonce :: MinedAt(s, plot, config, nonce)
  {
    hide ScoopNumber, Validates, GenuineGroup, GenuineNonce, HeldQuality, ReportedLevel, GroupSize, Foldable, Mod64;
    var o: nat :| IsFrom(s, reply, o);
    if GenuineNonce(reply, ScoopNumber(s.height, s.gensig), o) {
      BestValidates(reply, s, o);
    }
    var nonce, w := reply.warpOffset * NUM_SCOOPS + o, o / NUM_SCOOPS;
    Mod64Again(reply.warpOffset * NUM_SCOOPS, o);
    DivModUnique(nonce, NUM_SCOOPS, reply.warpOffset + w, o % NUM_SCOOPS);
    if Foldable(plot, config) {
      assert FaithfulNonce(reply, plot, ScoopNumber(s.height, s.gensig), GroupSize(plot, config), o);
      MulMono(reply.warpOffset + w + 1, reply.warpOffset + reply.numberOfWarps, GroupSize(plot, config));
    }
    assert MinedAt(s, plot, config, nonce);
  }

  // From genuine files, everything validates.
  lemma MinedValidate(plots: seq<PlotFile>, config: Option<CompressionConfig>, submissions: seq<Submission>,
                      height: nat, gensig: Seed)
    requires GenuineFiles(plots, config, ScoopNumber(height, gensig)) && AllFor(submissions, height, gensig)
    requires forall j :: 0 <= j < |submissions| ==> MinedFrom(submissions[j], plots, config)
    ensures AllValidate(submissions, height, gensig)
  {
    hide ScoopNumber, Validates, Foldable, Genuine, GenuineGroup, GroupSize, FromFile;
    forall j | 0 <= j < |submissions|
      ensures Validates(submissions[j])
    {
      var i, nonce :| 0 <= i < |plots| && MinedAt(submissions[j], plots[i], config, nonce);
      GenuineIsGroup(plots[i], ScoopNumber(height, gensig), GroupSize(plots[i], config), nonce);
    }
  }

  lemma GenuineIsGroup(plot: PlotFile, s: nat, k: nat, nonce: nat)
    requires Genuine(plot, s) && (nonce / NUM_SCOOPS + 1) * k <= plot.warps
    ensures GenuineGroup(plot, s, k, nonce)
  {
    hide GenuineScoop;
    assert (nonce / NUM_SCOOPS + 1) * k == nonce / NUM_SCOOPS * k + k;
  }

  lemma {:induction false} RepliesOfDisk(plots: seq<PlotFile>, turns: seq<Turn>, was: seq<nat>, now: seq<nat>, cap: nat,
                                         config: Option<CompressionConfig>, scoop: nat)
    requires TookTurns(plots, turns, was, now, cap, config, scoop)
    ensures AllFrom(Replies(AllEvents(turns)), plots, config, scoop)
    decreases |turns|
  {
    hide Scanned, Whole, Lost, Broken, Foldable, ActionFor, Held, PhaseOf, Has, ReportedLevel, ReplyOf, GroupSize;
    if |turns| > 0 {
      var n := |turns| - 1;
      RepliesOfDisk(plots[..n], turns[..n], was[..n], now[..n], cap, config, scoop);
      assert TurnOf(plots[n], turns[n], was[n], now[n], cap, config, scoop);
      RepliesConcat(AllEvents(turns[..n]), turns[n].events);
      RepliesOfPlot(turns[n].events, plots[n], config, scoop);
      FromMore(Replies(AllEvents(turns[..n])), plots[..n], plots, config, scoop);
      FromMore(Replies(turns[n].events), [plots[n]], plots, config, scoop);
    }
  }

  lemma FromMore(replies: seq<ReadReply>, some: seq<PlotFile>, plots: seq<PlotFile>, config: Option<CompressionConfig>,
                 scoop: nat)
    requires forall p :: p in some ==> p in plots
    requires AllFrom(replies, some, config, scoop)
    ensures AllFrom(replies, plots, config, scoop)
  {
    hide ReplyOf;
    forall j | 0 <= j < |replies|
      ensures ReplyFrom(replies[j], plots, config, scoop)
    {
      assert ReplyFrom(replies[j], some, config, scoop);
      var i :| 0 <= i < |some| && ReplyOf(replies[j], some[i], config, scoop);
      assert some[i] in some && some[i] in plots;
      var k :| 0 <= k < |plots| && plots[k] == some[i];
    }
  }

  lemma {:induction false} RepliesConcat(x: seq<Event>, y: seq<Event>)
    ensures Replies(x + y) == Replies(x) + Replies(y)
  {
    if |y| == 0 {
      assert x + y == x;
    } else {
      assert (x + y)[..|x + y| - 1] == x + y[..|y| - 1];
      RepliesConcat(x, y[..|y| - 1]);
    }
  }

  lemma {:induction false} RepliesOfPlot(events: seq<Event>, plot: PlotFile, config: Option<CompressionConfig>,
                                         scoop: nat)
    requires Labelled(events, plot, ReportedLevel(plot, config))
    requires Foldable(plot, config) ==> AllFaithful(events, plot, scoop, GroupSize(plot, config))
    ensures AllFrom(Replies(events), [plot], config, scoop)
  {
    hide ReportedLevel, Foldable, GroupSize, LabelledReply, FaithfulReply;
    if |events| > 0 {
      var n := |events| - 1;
      RepliesOfPlot(events[..n], plot, config, scoop);
      if events[n].Data? {
        assert ReplyOf(events[n].reply, [plot][0], config, scoop);
      }
    }
  }

  lemma {:induction false} SizedReplies(events: seq<Event>, plots: seq<PlotFile>, config: Option<CompressionConfig>,
                                        scoop: nat)
    requires AllFrom(Replies(events), plots, config, scoop)
    ensures AllSized(events)
  {
    hide FaithfulReply, Foldable, ReportedLevel;
    if |events| > 0 {
      var n := |events| - 1;
      var r := Replies(events);
      assert forall j :: 0 <= j < |Replies(events[..n])| ==> Replies(events[..n])[j] == r[j];
      SizedReplies(events[..n], plots, config, scoop);
      if events[n].Data? {
        assert ReplyFrom(r[|r| - 1], plots, config, scoop);
      }
    }
  }
}
