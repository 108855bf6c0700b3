/** Beat inference over a whole song: overlapping chunks, run on any number of workers,
    stitched back into one logit for each frame. */
module Chunks {

  /** A frame of the spectrogram. */
  type Frame(==, !new)

  /** Frames in a chunk: the length the network was trained on. */
  const CHUNK_FRAMES := 1500

  /** Frames at each edge of a chunk the network does not predict. */
  const BORDER_FRAMES := 6

  /** From the start of one chunk to the next: 1488 frames. */
  const STEP := CHUNK_FRAMES - 2 * BORDER_FRAMES

  /** The logit of a frame no chunk predicts. */
  const NO_PREDICTION := -1000.0

  // ---------- Where chunks start ----------

  /** How many chunks a song takes. */
  function ChunkCount(frames: nat): nat { (frames + STEP - 1) / STEP }

  /** Where chunk `k` starts: the first before the song, the last moved back to end with
      it. */
  function StartOf(frames: nat, k: nat): int {
    if frames > STEP && k + 1 == ChunkCount(frames) then frames - (CHUNK_FRAMES - BORDER_FRAMES)
        else k * STEP - BORDER_FRAMES
  }

  method ChunkStarts(frames: nat) returns (starts: seq<int>)
    ensures |starts| == ChunkCount(frames)
    ensures forall k :: 0 <= k < |starts| ==> starts[k] == StartOf(frames, k)
  {
    starts := [];
    var index := 0;
    while index * STEP - BORDER_FRAMES < frames - BORDER_FRAMES
      invariant index == |starts| <= ChunkCount(frames)
      invariant forall k :: 0 <= k < |starts| ==> starts[k] == k * STEP - BORDER_FRAMES
      decreases frames - index * STEP
    {
      starts := starts + [index * STEP - BORDER_FRAMES];
      index := index + 1;
    }
    if frames > STEP && starts != [] {
      starts := starts[|starts| - 1 := frames - (CHUNK_FRAMES - BORDER_FRAMES)];
    }
  }

  // ---------- What a chunk covers ----------

  /** The frames a chunk covers, and the silent ones around them. */
  datatype ChunkRange = ChunkRange(leftPadding: nat, from: nat, to: nat, rightPadding: nat)
  {
    function Len(): int { leftPadding + (to - from) + rightPadding }
  }

  function Max(a: int, b: int): int { if a < b then b else a }

  function Min(a: int, b: int): int { if b < a then b else a }

  function RangeOf(start: int, frames: nat): ChunkRange {
    var end := start + CHUNK_FRAMES;
    ChunkRange(Max(-start, 0), Max(start, 0), Min(Max(end, 0), frames), Min(BORDER_FRAMES, Max(end - frames, 0)))
  }

  /** How long the chunks of a song are. */
  function ChunkLength(frames: nat): nat {
    if frames <= STEP then frames + 2 * BORDER_FRAMES else CHUNK_FRAMES
  }

  /** Every chunk of a song covers frames of it, and is as long as every other; with its
      silence it starts at its start and never reaches past the border after the song. */
  lemma ChunksAreEqual(frames: nat, k: nat)
    requires k < ChunkCount(frames)
    ensures RangeOf(StartOf(frames, k), frames).from <= RangeOf(StartOf(frames, k), frames).to
    ensures RangeOf(StartOf(frames, k), frames).Len() == ChunkLength(frames)
  {
    assert k * STEP < frames;
    if k + 1 < ChunkCount(frames) { assert (k + 1) * STEP < frames; }
  }

  /** In numbers: the first chunk starts 6 frames before the song, each next one no more than
      1488 later, and the last ends 6 frames after it; they are 1500 frames long, or the whole
      song and 6 frames on each side. */
  lemma ChunksSpanSong(frames: nat, k: nat)
    requires k < ChunkCount(frames)
    ensures StartOf(frames, 0) == -6
    ensures ChunkLength(frames) == if frames > 1488 then 1500 else frames + 12
    ensures k + 1 < ChunkCount(frames) ==> 0 < StartOf(frames, k + 1) - StartOf(frames, k) <= 1488
    ensures k + 1 == ChunkCount(frames) ==> StartOf(frames, k) + ChunkLength(frames) == frames + 6
  {
    assert k * STEP < frames;
    if k + 1 < ChunkCount(frames) {
      StartsIncrease(frames, k, k + 1);
    }
  }

  lemma StartsIncrease(frames: nat, j: nat, k: nat)
    requires j < k < ChunkCount(frames)
    ensures StartOf(frames, j) < StartOf(frames, k)
  {
    assert k * STEP < frames && (j + 1) * STEP <= k * STEP;
  }

  /** Chunk `k` predicts frame `f`. */
  predicate Predicts(start: int, length: nat, f: int) {
    start + BORDER_FRAMES <= f < start + length - BORDER_FRAMES
  }

  /** Frame `f` is predicted by chunk `f / 1488`, and by none before it. */
  lemma FirstPredicting(frames: nat, f: nat, k: nat)
    requires f < frames && k < ChunkCount(frames)
    ensures f / STEP < ChunkCount(frames) && Predicts(StartOf(frames, f / STEP), ChunkLength(frames), f)
    ensures Predicts(StartOf(frames, k), ChunkLength(frames), f) ==> f / STEP <= k
  {
    var c := f / STEP;
    assert c * STEP <= f < (c + 1) * STEP;
    assert c < ChunkCount(frames) by { assert c * STEP < frames; }
    if k < c {
      assert (k + 1) * STEP <= c * STEP;
    }
  }

  // ---------- Sharing chunks among workers ----------

  /** The starts one of `workers` takes: from its own on, every `workers`-th. */
  function Share(starts: seq<int>, worker: nat, workers: nat): (r: seq<int>)
    requires workers > 0
    decreases Max(|starts| - worker, 0)
  {
    if worker < |starts| then [starts[worker]] + Share(starts, worker + workers, workers) else []
  }

  /** A worker's share holds the starts whose index leaves it as remainder, from its own on. */
  lemma {:induction false} ShareHolds(starts: seq<int>, worker: nat, workers: nat, x: int)
    requires workers > 0
    ensures x in Share(starts, worker, workers) <==>
            exists i :: worker <= i < |starts| && i % workers == worker % workers && starts[i] == x
    decreases Max(|starts| - worker, 0)
  {
    if worker < |starts| {
      ShareHolds(starts, worker + workers, workers, x);
      assert (worker + workers) % workers == worker % workers by { Remainder(worker, workers); }
      if i :| worker <= i < |starts| && i % workers == worker % workers && starts[i] == x && i != worker {
        NextInShare(worker, i, workers);
      }
    }
  }

  lemma Remainder(worker: nat, workers: nat)
    requires workers > 0
    ensures (worker + workers) % workers == worker % workers
  {
    var q := worker / workers;
    assert worker == q * workers + worker % workers;
    assert worker + workers == (q + 1) * workers + worker % workers;
    SameRemainder(worker + workers, q + 1, worker % workers, workers);
  }

  lemma MoreTimes(a: int, b: int, w: nat)
    requires a < b
    ensures a * w + w <= b * w
  {
    var d := b - a - 1;
    assert b * w == a * w + w + d * w;
    assert 0 <= d * w;
  }

  lemma SameRemainder(n: int, q: int, r: int, workers: nat)
    requires workers > 0 && n == q * workers + r && 0 <= r < workers
    ensures n % workers == r
  {
    var q', r' := n / workers, n % workers;
    assert n == q' * workers + r';
    if q' < q {
      MoreTimes(q', q, workers);
    } else if q < q' {
      MoreTimes(q, q', workers);
    }
  }

  lemma NextInShare(worker: nat, i: nat, workers: nat)
    requires workers > 0 && worker < i && i % workers == worker % workers
    ensures worker + workers <= i
  {
    var a, b := worker / workers, i / workers;
    assert worker == a * workers + worker % workers && i == b * workers + i % workers;
    if a < b {
      MoreTimes(a, b, workers);
    } else if b < a {
      MoreTimes(b, a, workers);
    }
  }

  /** Every start is in the share of exactly one worker. */
  lemma {:induction false} EachStartOnce(starts: seq<int>, i: nat, workers: nat, worker: nat)
    requires workers > 0 && i < |starts| && worker < workers
    requires forall j, k :: 0 <= j < k < |starts| ==> starts[j] != starts[k]
    ensures starts[i] in Share(starts, worker, workers) <==> worker == i % workers
  {
    ShareHolds(starts, worker, workers, starts[i]);
    SmallRemainder(worker, workers);
    RemainderWithin(i, workers);
  }

  lemma SmallRemainder(n: nat, workers: nat)
    requires n < workers
    ensures n % workers == n
  {
    SameRemainder(n, 0, n, workers);
  }

  lemma RemainderWithin(i: nat, workers: nat)
    requires workers > 0
    ensures i % workers <= i
  {
    var q := i / workers;
    assert i == q * workers + i % workers;
    assert q * workers >= 0;
  }

  /** And in that share it is once: the share ascends with the starts. */
  lemma {:induction false} ShareAscends(starts: seq<int>, worker: nat, workers: nat)
    requires workers > 0 && forall j, k :: 0 <= j < k < |starts| ==> starts[j] < starts[k]
    ensures forall i, j :: 0 <= i < j < |Share(starts, worker, workers)| ==>
              Share(starts, worker, workers)[i] < Share(starts, worker, workers)[j]
    decreases Max(|starts| - worker, 0)
  {
    if worker < |starts| {
      var rest := Share(starts, worker + workers, workers);
      ShareAscends(starts, worker + workers, workers);
      forall j | 0 <= j < |rest| ensures starts[worker] < rest[j] {
        assert rest[j] in rest;
        ShareHolds(starts, worker + workers, workers, rest[j]);
      }
    }
  }

  // ---------- Running the network ----------

  /** The network's logits for each frame of its input, or why it failed. */
  datatype Outcome = Logits(beat: seq<real>, downbeat: seq<real>) | Failed(message: string)

  datatype Prediction = Prediction(start: int, beat: seq<real>, downbeat: seq<real>)

  /** A song and the network that hears it. The network gives one logit of each kind for
      every frame, when it does not fail. */
  datatype Song = Song(frames: seq<Frame>, silence: Frame, network: seq<Frame> -> Outcome)
  {
    ghost predicate GivesLogits() {
      forall input :: network(input).Logits? ==> |network(input).beat| == |network(input).downbeat| == |input|
    }

    function Silence(n: nat): (r: seq<Frame>)
      ensures |r| == n
    {
      seq(n, _ => silence)
    }

    /** What the network hears of the chunk at `start`: its frames of the song between silence. */
    function Input(start: int): (r: seq<Frame>)
      requires RangeOf(start, |frames|).from <= RangeOf(start, |frames|).to
      ensures |r| == RangeOf(start, |frames|).Len()
    {
      var range := RangeOf(start, |frames|);
      Silence(range.leftPadding) + frames[range.from..range.to] + Silence(range.rightPadding)
    }

    /** What the network makes of chunk `k`. */
    function Heard(k: nat): Outcome
      requires k < ChunkCount(|frames|)
    {
      ChunksAreEqual(|frames|, k);
      network(Input(StartOf(|frames|, k)))
    }
  }

  /** Position `i` of a chunk's input is the song's frame there, and silence where the song has none. */
  lemma {:induction false} InputHears(song: Song, k: nat, i: nat)
    requires k < ChunkCount(|song.frames|) && i < ChunkLength(|song.frames|)
    ensures var start := StartOf(|song.frames|, k);
            && RangeOf(start, |song.frames|).from <= RangeOf(start, |song.frames|).to
            && |song.Input(start)| == ChunkLength(|song.frames|)
            && song.Input(start)[i] ==
               if 0 <= start + i < |song.frames| then song.frames[start + i] else song.silence
  {
    ChunksAreEqual(|song.frames|, k);
  }

  /** The network answers position by position: its logits at each are `g` of the frame there. */
  ghost predicate AnswersEach(song: Song, g: Frame -> (real, real)) {
    forall input, i: nat ::
        song.network(input).Logits? && i < |input|
        && |song.network(input).beat| == |song.network(input).downbeat| == |input| ==>
      (song.network(input).beat[i], song.network(input).downbeat[i]) == g(input[i])
  }

  /** The predictions of one worker's share, in its order, or the first failure. */
  datatype WorkerResult = Predicted(chunks: seq<Prediction>) | WorkerFailed(message: string)

  /** The prediction is that of the chunk it starts with. */
  ghost predicate IsPrediction(song: Song, k: nat, p: Prediction) {
    && k < ChunkCount(|song.frames|) && song.Heard(k).Logits?
    && p == Prediction(StartOf(|song.frames|, k), song.Heard(k).beat, song.Heard(k).downbeat)
  }

  /** The predictions are exactly those of the chunks whose starts are listed. */
  ghost predicate PredictsAll(song: Song, starts: seq<int>, chunks: seq<Prediction>) {
    && |chunks| == |starts|
    && forall i :: 0 <= i < |chunks| ==>
         exists k: nat :: k < ChunkCount(|song.frames|) && starts[i] == StartOf(|song.frames|, k)
             && IsPrediction(song, k, chunks[i])
  }

  /** Some chunk fails with this message. */
  ghost predicate SomeFails(song: Song, message: string) {
    exists k: nat :: k < ChunkCount(|song.frames|) && song.Heard(k) == Failed(message)
  }

  /** Some chunk of a song of `frames` starts at `x`. */
  ghost predicate IsStart(frames: nat, x: int) {
    exists k: nat :: k < ChunkCount(frames) && x == StartOf(frames, k)
  }

  method RunWorker(song: Song, share: seq<int>) returns (r: WorkerResult)
    requires song.GivesLogits()
    requires forall i :: 0 <= i < |share| ==> IsStart(|song.frames|, share[i])
    ensures r.Predicted? ==> PredictsAll(song, share, r.chunks)
    ensures r.WorkerFailed? ==> SomeFails(song, r.message)
  {
    var chunks, i := [], 0;
    while i < |share|
      invariant 0 <= i <= |share| && PredictsAll(song, share[..i], chunks)
    {
      assert IsStart(|song.frames|, share[i]);
      ghost var k: nat :| k < ChunkCount(|song.frames|) && share[i] == StartOf(|song.frames|, k);
      ChunksAreEqual(|song.frames|, k);
      var outcome := song.network(song.Input(share[i]));
      assert outcome == song.Heard(k);
      if outcome.Failed? {
        return WorkerFailed(outcome.message);
      }
      var next := Prediction(share[i], outcome.beat, outcome.downbeat);
      PredictedOneMore(song, share, i, chunks, k, next);
      chunks := chunks + [next];
      i := i + 1;
    }
    assert share[..i] == share;
    r := Predicted(chunks);
  }

  lemma PredictedOneMore(song: Song, share: seq<int>, i: nat, chunks: seq<Prediction>, k: nat, next: Prediction)
    requires i < |share| && PredictsAll(song, share[..i], chunks) && IsPrediction(song, k, next)
             && share[i] == StartOf(|song.frames|, k)
    ensures PredictsAll(song, share[..i + 1], chunks + [next])
  {
    forall m | 0 <= m < i + 1
      ensures exists k': nat :: k' < ChunkCount(|song.frames|) && share[..i + 1][m] == StartOf(|song.frames|, k')
                                && IsPrediction(song, k', (chunks + [next])[m])
    {
      if m < i { assert share[..i][m] == share[..i + 1][m]; }
    }
  }

  // ---------- Stitching ----------

  /** A frame's logits: what the last chunk written that predicts it says. */
  ghost function Overlaid(chunks: seq<Prediction>, f: nat): (real, real)
    requires forall c :: c in chunks ==> |c.beat| == |c.downbeat|
  {
    if chunks == [] then (NO_PREDICTION, NO_PREDICTION)
    else
      var c := chunks[|chunks| - 1];
      assert c in chunks;
      if Predicts(c.start, |c.beat|, f) then (c.beat[f - c.start], c.downbeat[f - c.start])
      else Overlaid(chunks[..|chunks| - 1], f)
  }

  function InsertDescending(p: Prediction, sorted: seq<Prediction>): seq<Prediction> {
    if sorted == [] || sorted[0].start <= p.start then [p] + sorted else [sorted[0]] + InsertDescending(p, sorted[1..])
  }

  /** Later starts first. */
  function SortDescending(chunks: seq<Prediction>): seq<Prediction> {
    if chunks == [] then [] else InsertDescending(chunks[0], SortDescending(chunks[1..]))
  }

  ghost predicate Descending(chunks: seq<Prediction>) {
    |chunks| < 2 || (chunks[1].start <= chunks[0].start && Descending(chunks[1..]))
  }

  lemma {:induction false} InsertedDescending(p: Prediction, sorted: seq<Prediction>)
    requires Descending(sorted)
    ensures Descending(InsertDescending(p, sorted))
    ensures forall c :: c in InsertDescending(p, sorted) <==> c == p || c in sorted
  {
    if sorted == [] || sorted[0].start <= p.start {
      assert ([p] + sorted)[1..] == sorted;
    } else {
      var first, rest := sorted[0], sorted[1..];
      assert sorted == [first] + rest;
      InsertedDescending(p, rest);
      assert ([first] + InsertDescending(p, rest))[1..] == InsertDescending(p, rest);
    }
  }

  lemma {:induction false} SortedDescending(chunks: seq<Prediction>)
    ensures Descending(SortDescending(chunks)) && forall c :: c in SortDescending(chunks) <==> c in chunks
  {
    if chunks != [] {
      assert chunks == [chunks[0]] + chunks[1..];
      SortedDescending(chunks[1..]);
      InsertedDescending(chunks[0], SortDescending(chunks[1..]));
    }
  }

  lemma {:induction false} LastIsLeast(chunks: seq<Prediction>, c: Prediction)
    requires Descending(chunks) && c in chunks
    ensures chunks[|chunks| - 1].start <= c.start
  {
    if |chunks| > 1 {
      var last := chunks[|chunks| - 1];
      assert chunks == [chunks[0]] + chunks[1..] && chunks[1..][|chunks| - 2] == last;
      if c == chunks[0] {
        LastIsLeast(chunks[1..], chunks[1]);
      } else {
        LastIsLeast(chunks[1..], c);
      }
    }
  }

  lemma {:induction false} InitDescends(chunks: seq<Prediction>)
    requires Descending(chunks) && chunks != []
    ensures Descending(chunks[..|chunks| - 1])
  {
    if |chunks| > 1 {
      var init := chunks[..|chunks| - 1];
      InitDescends(chunks[1..]);
      assert init[1..] == chunks[1..][..|chunks| - 2];
    }
  }

  /** Of the chunks that predict a frame the one that starts first has the last word. */
  lemma {:induction false} EarliestWins(chunks: seq<Prediction>, c: Prediction, f: nat)
    requires Descending(chunks) && c in chunks && Predicts(c.start, |c.beat|, f)
    requires forall d :: d in chunks ==> |d.beat| == |d.downbeat|
    requires forall d :: d in chunks && Predicts(d.start, |d.beat|, f) ==> c.start <= d.start
    requires forall d :: d in chunks && d.start == c.start ==> d == c
    ensures |c.beat| == |c.downbeat| && Overlaid(chunks, f) == (c.beat[f - c.start], c.downbeat[f - c.start])
  {
    var last := chunks[|chunks| - 1];
    LastIsLeast(chunks, c);
    assert last in chunks;
    if !Predicts(last.start, |last.beat|, f) {
      var init := chunks[..|chunks| - 1];
      assert chunks == init + [last];
      InitDescends(chunks);
      EarliestWins(init, c, f);
    }
  }

  /** Write each chunk's logits over the frames it predicts, in order. */
  method Overlay(chunks: seq<Prediction>, frames: nat) returns (beat: array<real>, downbeat: array<real>)
    requires forall c :: c in chunks ==> |c.beat| == |c.downbeat|
    ensures fresh(beat) && fresh(downbeat) && beat.Length == downbeat.Length == frames
    ensures forall f: nat :: f < frames ==> (beat[f], downbeat[f]) == Overlaid(chunks, f)
  {
    beat := new real[frames](_ => NO_PREDICTION);
    downbeat := new real[frames](_ => NO_PREDICTION);
    var i := 0;
    while i < |chunks|
      invariant 0 <= i <= |chunks|
      invariant forall f: nat :: f < frames ==> (beat[f], downbeat[f]) == Overlaid(chunks[..i], f)
    {
      var chunk := chunks[i];
      assert chunk in chunks && chunks[..i + 1][..i] == chunks[..i];
      WriteChunk(chunk, beat, downbeat);
      i := i + 1;
    }
    assert chunks[..i] == chunks;
  }

  method WriteChunk(chunk: Prediction, beat: array<real>, downbeat: array<real>)
    requires |chunk.beat| == |chunk.downbeat| && beat.Length == downbeat.Length && beat != downbeat
    modifies beat, downbeat
    ensures forall f: nat :: f < beat.Length ==>
              if Predicts(chunk.start, |chunk.beat|, f)
              then beat[f] == chunk.beat[f - chunk.start] && downbeat[f] == chunk.downbeat[f - chunk.start]
              else beat[f] == old(beat[f]) && downbeat[f] == old(downbeat[f])
  {
    var index := BORDER_FRAMES;
    while index < |chunk.beat| - BORDER_FRAMES
      invariant BORDER_FRAMES <= index
      invariant forall f: nat :: f < beat.Length ==>
                  if Predicts(chunk.start, |chunk.beat|, f) && f < chunk.start + index
                  then beat[f] == chunk.beat[f - chunk.start] && downbeat[f] == chunk.downbeat[f - chunk.start]
                  else beat[f] == old(beat[f]) && downbeat[f] == old(downbeat[f])
    {
      var frame := chunk.start + index;
      if 0 <= frame < beat.Length {
        beat[frame] := chunk.beat[index];
        downbeat[frame] := chunk.downbeat[index];
      }
      index := index + 1;
    }
  }

  // ---------- A whole song ----------

  datatype Stitched = Whole(beat: seq<real>, downbeat: seq<real>) | NoResult(message: string)

  ghost predicate HasChunk(song: Song, chunks: seq<Prediction>, k: nat) {
    exists c :: c in chunks && IsPrediction(song, k, c)
  }

  /** Every prediction is that of some chunk. */
  ghost predicate OnlyPredictions(song: Song, chunks: seq<Prediction>) {
    forall c :: c in chunks ==> exists k: nat :: IsPrediction(song, k, c)
  }

  /** The predictions of every chunk whose start the first `n` workers share. */
  ghost predicate HasShares(song: Song, starts: seq<int>, workers: nat, n: nat, chunks: seq<Prediction>)
    requires workers > 0
  {
    forall w: nat, k: nat ::
        w < n && k < ChunkCount(|song.frames|)
        && StartOf(|song.frames|, k) in Share(starts, w, workers) ==>
      HasChunk(song, chunks, k)
  }

  lemma SameStart(frames: nat, j: nat, k: nat)
    requires j < ChunkCount(frames) && k < ChunkCount(frames) && StartOf(frames, j) == StartOf(frames, k)
    ensures j == k
  {
    if j < k {
      StartsIncrease(frames, j, k);
    } else if k < j {
      StartsIncrease(frames, k, j);
    }
  }

  /** A worker's predictions join those before. */
  lemma {:induction false} JoinShare(song: Song, starts: seq<int>, workers: nat, n: nat, chunks: seq<Prediction>,
                                     more: seq<Prediction>)
    requires workers > 0 && OnlyPredictions(song, chunks) && HasShares(song, starts, workers, n, chunks)
    requires PredictsAll(song, Share(starts, n, workers), more)
    ensures OnlyPredictions(song, chunks + more) && HasShares(song, starts, workers, n + 1, chunks + more)
  {
    forall c | c in chunks + more ensures exists k: nat :: IsPrediction(song, k, c) {
      if c !in chunks {
        var i :| 0 <= i < |more| && more[i] == c;
      }
    }
    forall w: nat, k: nat | w < n + 1 && k < ChunkCount(|song.frames|)
        && StartOf(|song.frames|, k) in Share(starts, w, workers)
      ensures HasChunk(song, chunks + more, k)
    {
      if w < n {
        assert HasChunk(song, chunks, k);
        var c :| c in chunks && IsPrediction(song, k, c);
        assert c in chunks + more;
      } else {
        var share := Share(starts, n, workers);
        var i :| 0 <= i < |share| && share[i] == StartOf(|song.frames|, k);
        var k': nat :| k' < ChunkCount(|song.frames|) && share[i] == StartOf(|song.frames|, k')
            && IsPrediction(song, k', more[i]);
        SameStart(|song.frames|, k, k');
        assert more[i] in chunks + more;
      }
    }
  }

  lemma {:induction false} ShareOfStarts(frames: nat, starts: seq<int>, worker: nat, workers: nat)
    requires workers > 0 && |starts| == ChunkCount(frames) &&
             forall k :: 0 <= k < |starts|
               ==> starts[k] == StartOf(frames, k)
    ensures forall i :: 0 <= i < |Share(starts, worker, workers)| ==> IsStart(frames, Share(starts, worker, workers)[i])
  {
    var share := Share(starts, worker, workers);
    forall i | 0 <= i < |share| ensures IsStart(frames, share[i]) {
      assert share[i] in share;
      ShareHolds(starts, worker, workers, share[i]);
    }
  }

  /** Run every worker; `chunks` are all predictions, in the workers' order. */
  method RunWorkers(song: Song, starts: seq<int>, workers: nat) returns (r: WorkerResult)
    requires song.GivesLogits() && workers > 0
    requires |starts| == ChunkCount(|song.frames|) &&
             forall k :: 0 <= k < |starts|
               ==> starts[k] == StartOf(|song.frames|, k)
    ensures r.Predicted? ==> OnlyPredictions(song, r.chunks) && HasShares(song, starts, workers, workers, r.chunks)
    ensures r.WorkerFailed? ==> SomeFails(song, r.message)
  {
    var chunks, w := [], 0;
    while w < workers
      invariant 0 <= w <= workers && OnlyPredictions(song, chunks) && HasShares(song, starts, workers, w, chunks)
    {
      ShareOfStarts(|song.frames|, starts, w, workers);
      r := RunWorker(song, Share(starts, w, workers));
      if r.WorkerFailed? {
        return;
      }
      JoinShare(song, starts, workers, w, chunks, r.chunks);
      chunks := chunks + r.chunks;
      w := w + 1;
    }
    r := Predicted(chunks);
  }

  lemma EveryChunkShared(song: Song, starts: seq<int>, workers: nat, chunks: seq<Prediction>, k: nat)
    requires workers > 0 && HasShares(song, starts, workers, workers, chunks) && k < ChunkCount(|song.frames|)
    requires |starts| == ChunkCount(|song.frames|) &&
             forall i :: 0 <= i < |starts|
               ==> starts[i] == StartOf(|song.frames|, i)
    ensures HasChunk(song, chunks, k)
  {
    forall i, j | 0 <= i < j < |starts| ensures starts[i] != starts[j] { StartsIncrease(|song.frames|, i, j); }
    EachStartOnce(starts, k, workers, k % workers);
  }

  lemma PredictionLength(song: Song, k: nat, p: Prediction)
    requires song.GivesLogits() && IsPrediction(song, k, p)
    ensures |p.beat| == |p.downbeat| == ChunkLength(|song.frames|)
  {
    ChunksAreEqual(|song.frames|, k);
  }

  /** The stitched logits of a frame are those of its chunk, the one at `f / 1488`. */
  lemma {:induction false} StitchedFrame(song: Song, chunks: seq<Prediction>, sorted: seq<Prediction>, f: nat)
    requires song.GivesLogits() && f < |song.frames| && Descending(sorted) && OnlyPredictions(song, chunks)
    requires forall c :: c in sorted <==> c in chunks
    requires forall d :: d in sorted ==> |d.beat| == |d.downbeat|
    requires forall k: nat :: k < ChunkCount(|song.frames|) ==> HasChunk(song, chunks, k)
    ensures f / STEP < ChunkCount(|song.frames|) && song.Heard(f / STEP).Logits?
    ensures var index := f - StartOf(|song.frames|, f / STEP);
            && 0 <= index < |song.Heard(f / STEP).beat| == |song.Heard(f / STEP).downbeat|
            && Overlaid(sorted, f) == (song.Heard(f / STEP).beat[index], song.Heard(f / STEP).downbeat[index])
  {
    var n, k := |song.frames|, f / STEP;
    FirstPredicting(n, f, 0);
    assert HasChunk(song, chunks, k);
    var c :| c in chunks && IsPrediction(song, k, c);
    PredictionLength(song, k, c);
    forall d | d in sorted && Predicts(d.start, |d.beat|, f) ensures c.start <= d.start {
      var j: nat :| IsPrediction(song, j, d);
      PredictionLength(song, j, d);
      FirstPredicting(n, f, j);
      if k < j { StartsIncrease(n, k, j); }
    }
    forall d | d in sorted && d.start == c.start ensures d == c {
      var j: nat :| IsPrediction(song, j, d);
      SameStart(n, j, k);
    }
    EarliestWins(sorted, c, f);
  }

  /** The logits of frame `f` are what the network hears in chunk `f / 1488`. */
  ghost predicate FrameIsHeard(song: Song, beat: seq<real>, downbeat: seq<real>, f: nat) {
    && f < |beat| == |downbeat| && f / STEP < ChunkCount(|song.frames|) && song.Heard(f / STEP).Logits?
    && var index := f - StartOf(|song.frames|, f / STEP);
       && 0 <= index < |song.Heard(f / STEP).beat| == |song.Heard(f / STEP).downbeat|
       && beat[f] == song.Heard(f / STEP).beat[index] && downbeat[f] == song.Heard(f / STEP).downbeat[index]
  }

  /** A network that answers position by position gives each position of a chunk `g` of what is heard there. */
  lemma {:induction false} HeardIsAnswered(song: Song, g: Frame -> (real, real), k: nat, i: nat)
    requires song.GivesLogits() && AnswersEach(song, g) && k < ChunkCount(|song.frames|) && song.Heard(k).Logits?
    requires i < ChunkLength(|song.frames|)
    ensures |song.Heard(k).beat| == |song.Heard(k).downbeat| == ChunkLength(|song.frames|)
    ensures var f := StartOf(|song.frames|, k) + i;
            (song.Heard(k).beat[i], song.Heard(k).downbeat[i]) ==
            g(if 0 <= f < |song.frames| then song.frames[f] else song.silence)
  {
    InputHears(song, k, i);
    var input := song.Input(StartOf(|song.frames|, k));
    assert song.Heard(k) == song.network(input);
  }

  /** Stitched, a frame has the answer to itself. */
  lemma FrameIsAnswered(song: Song, g: Frame -> (real, real), beat: seq<real>, downbeat: seq<real>, f: nat)
    requires song.GivesLogits() && AnswersEach(song, g) && f < |song.frames| && FrameIsHeard(song, beat, downbeat, f)
    ensures (beat[f], downbeat[f]) == g(song.frames[f])
  {
    FirstPredicting(|song.frames|, f, 0);
    HeardIsAnswered(song, g, f / STEP, f - StartOf(|song.frames|, f / STEP));
  }

  /** Logits for every frame of a song, however many threads there are: each frame has those
      of one chunk, and none is left without; or the message of a chunk that failed. Each
      frame's are those the network gives for that frame: one that answers position by
      position with `g` gives it `g` of itself. */
  method Predict(song: Song, parallelism: nat) returns (r: Stitched)
    requires song.GivesLogits() && parallelism > 0
    ensures r.Whole? ==> |r.beat| == |r.downbeat| == |song.frames|
    ensures r.Whole? ==> forall f: nat :: f < |song.frames| ==> FrameIsHeard(song, r.beat, r.downbeat, f)
    ensures r.Whole? ==> forall g, f: nat :: AnswersEach(song, g) && f < |song.frames| ==>
                             (r.beat[f], r.downbeat[f]) == g(song.frames[f])
    ensures r.Whole? ==> forall k: nat :: k < ChunkCount(|song.frames|) ==> song.Heard(k).Logits?
    ensures r.NoResult? ==> SomeFails(song, r.message)
  {
    var starts := ChunkStarts(|song.frames|);
    if starts == [] {
      return Whole([], []);
    }
    var workers := if parallelism < |starts| then parallelism else |starts|;
    var all := RunWorkers(song, starts, workers);
    if all.WorkerFailed? {
      return NoResult(all.message);
    }
    var chunks := SortDescending(all.chunks);
    SortedDescending(all.chunks);
    forall c | c in chunks ensures |c.beat| == |c.downbeat| {
      var k: nat :| IsPrediction(song, k, c);
      PredictionLength(song, k, c);
    }
    forall k: nat | k < ChunkCount(|song.frames|) ensures HasChunk(song, all.chunks, k) {
      EveryChunkShared(song, starts, workers, all.chunks, k);
    }
    forall k: nat | k < ChunkCount(|song.frames|)
      ensures song.Heard(k).Logits? { assert HasChunk(song, all.chunks, k); }
    var beat, downbeat := Overlay(chunks, |song.frames|);
    forall f: nat | f < |song.frames| ensures FrameIsHeard(song, beat[..], downbeat[..], f) {
      StitchedFrame(song, all.chunks, chunks, f);
    }
    r := Whole(beat[..], downbeat[..]);
    forall g, f: nat | AnswersEach(song, g) && f < |song.frames|
      ensures (r.beat[f], r.downbeat[f]) == g(song.frames[f])
    {
      FrameIsAnswered(song, g, r.beat, r.downbeat, f);
    }
  }
}
