/** Validating a project, and validating an edit of one that already passed: the edit's
    check skips what is still shared with the project before it. */
module Validation {
  import opened Options

  /** Contents the checks below only pass on. */
  type Data(==, !new)

  /** What a check not modelled here found. */
  type Problem(==, !new)

  /** A value and the allocation it lies in. */
  datatype Handle<+T> = Handle(address: nat, value: T)

  // ---------- Sequences and projects ----------

  /** A clip: its layer, the layout of its target, its times in nanoseconds, and the rest. */
  datatype Clip = Clip(id: nat, name: string, layer: nat, layout: nat, start: nat, duration: nat, body: Data)

  datatype Layer = Layer(id: nat, rest: Data)

  datatype Mark = Mark(time: nat, caption: Option<string>)

  datatype MarkCollection = MarkCollection(name: string, marks: seq<Mark>)

  datatype Sequence = Sequence(id: nat, frameRate: nat, duration: nat, layers: seq<Layer>, marks: seq<MarkCollection>,
                               graph: Data, clips: seq<Handle<Clip>>, automation: Data)

  /** A sequence under its key in the store. */
  datatype Entry = Entry(key: nat, value: Sequence)

  /** The project root, with the sequences it owns in place. */
  datatype Root = Root(data: Data, inline: seq<Sequence>)

  /** The thirteen stores: the root, the sequences, and the eleven others in fixed order. */
  datatype Project = Project(root: Handle<Root>, others: seq<Handle<Data>>, sequences: Handle<seq<Entry>>)

  const OTHER_STORES := 11

  /** What the checks on everything but sequences see. */
  datatype Contents = Contents(root: Data, others: seq<Data>)

  function Values(others: seq<Handle<Data>>): (r: seq<Data>)
    ensures |r| == |others| && forall i :: 0 <= i < |r| ==> r[i] == others[i].value
  {
    seq(|others|, i requires 0 <= i < |others| => others[i].value)
  }

  function ContentsOf(p: Project): Contents {
    Contents(p.root.value.data, Values(p.others))
  }

  /** Every sequence once: those in the store, then those owned in place. */
  function Sequences(p: Project): seq<Sequence> {
    EntryValues(p.sequences.value) + p.root.value.inline
  }

  function EntryValues(entries: seq<Entry>): (r: seq<Sequence>)
    ensures |r| == |entries| && forall i :: 0 <= i < |r| ==> r[i] == entries[i].value
  {
    seq(|entries|, i requires 0 <= i < |entries| => entries[i].value)
  }

  function FindEntry(entries: seq<Entry>, key: nat): Option<Sequence> {
    if entries == [] then None
    else if entries[0].key == key then Some(entries[0].value)
    else FindEntry(entries[1..], key)
  }

  function FindInline(inline: seq<Sequence>, id: nat): Option<Sequence> {
    if inline == [] then None else if inline[0].id == id then Some(inline[0]) else FindInline(inline[1..], id)
  }

  /** The sequence with `id`: in the store by key, else owned in place. */
  function FindSequence(p: Project, id: nat): Option<Sequence> {
    var entry := FindEntry(p.sequences.value, id);
    if entry.Some? then entry else FindInline(p.root.value.inline, id)
  }

  /** Checks whose insides are not modelled, each a function of what it reads. */
  datatype Rules = Rules(
    ownershipBefore: Project -> Option<Problem>,
    ownershipAfter: Project -> Option<Problem>,
    storesBefore: Contents -> Option<Problem>,
    consoles: Contents -> Option<Problem>,
    activeLayout: Contents -> Option<nat>,
    rootSequences: Contents -> set<nat>,
    nameFits: string -> bool,
    captionFits: string -> bool,
    automationIds: Data -> Option<Problem>,
    layersAndGraph: (Contents, seq<Layer>, Data, set<string>) -> Option<Problem>,
    target: (Contents, Clip) -> Option<Problem>,
    params: (Contents, Clip, set<string>) -> Option<Problem>,
    automation: (Contents, Sequence) -> Option<Problem>)

  // ---------- Errors ----------

  datatype TimingProblem =
    | ZeroFrameRate
    | FrameRateAboveLimit
    | ZeroDuration
    | DurationBeyondClock
    | DurationRoundsToZero
    | TooManyFrames

  datatype RegionProblem =
    | EmptyRegion
    | Overflow
    | BeyondSequence
    | StartBeyondClock
    | RegionBeyondClock
    | RoundsToZero
    | EndBeyondAfterRounding

  datatype NameProblem = NotSnakeCase(name: string) | Duplicate(name: string)

  datatype ClipProblem =
    | MissingLayer
    | Region(region: RegionProblem)
    | NotInActiveLayout
    | MixedLayouts
    | Target(target: Problem)
    | Params(params: Problem)

  datatype SequenceError =
    | MissingActiveSetup
    | Timing(timing: TimingProblem)
    | DuplicateClipId(clip: nat)
    | AutomationIds(ids: Problem)
    | Name(names: NameProblem)
    | Layers(layers: Problem)
    | MarkOutsideDuration(marks: string)
    | InvalidMarkLabel(caption: string)
    | OfClip(id: nat, problem: ClipProblem)
    | Automation(automation: Problem)

  datatype Error =
    | Ownership(ownership: Problem)
    | StoredUnderOtherId(key: nat)
    | Store(store: Problem)
    | OfSequence(id: nat, sequence: SequenceError)
    | Console(console: Problem)

  // ---------- Times ----------

  const MAX_SEQUENCE_FRAME_COUNT := 250_000

  const MAX_SEQUENCE_FRAME_RATE := 1_000

  const NANOS_PER_SECOND := 1_000_000_000

  const U32_MAX := 0xFFFF_FFFF

  /** The longest time the clock's seconds, 64 bits of them, can hold. */
  const MAX_NANOS := 0x1_0000_0000_0000_0000 * NANOS_PER_SECOND - 1

  /** Nanoseconds as ticks of a microsecond, when 32 bits hold them. */
  function Ticks(nanos: nat): Option<nat> {
    var ticks := (nanos + 500) / 1000;
    if ticks > U32_MAX then None else Some(ticks)
  }

  function FrameCount(s: Sequence): nat {
    (s.duration * s.frameRate + NANOS_PER_SECOND - 1) / NANOS_PER_SECOND
  }

  function TimingOf(s: Sequence): Option<TimingProblem> {
    if s.frameRate == 0 then Some(ZeroFrameRate)
    else if s.frameRate > MAX_SEQUENCE_FRAME_RATE then Some(FrameRateAboveLimit)
    else if s.duration == 0 then Some(ZeroDuration)
    else if Ticks(s.duration).None? then Some(DurationBeyondClock)
    else if Ticks(s.duration).value == 0 then Some(DurationRoundsToZero)
    else if FrameCount(s) > MAX_SEQUENCE_FRAME_COUNT then Some(TooManyFrames)
    else None
  }

  function RegionOf(start: nat, duration: nat, sequence: nat, sampled: nat): Option<RegionProblem> {
    if duration == 0 then Some(EmptyRegion)
    else if start + duration > MAX_NANOS then Some(Overflow)
    else if start + duration > sequence then Some(BeyondSequence)
    else if Ticks(start).None? then Some(StartBeyondClock)
    else if Ticks(duration).None? then Some(RegionBeyondClock)
    else if Ticks(duration).value == 0 then Some(RoundsToZero)
    else if Ticks(start).value + Ticks(duration).value > U32_MAX || Ticks(start).value + Ticks(duration).value > sampled
    then Some(EndBeyondAfterRounding)
    else None
  }

  // ---------- Names ----------

  function ClipNames(clips: seq<Handle<Clip>>): (r: seq<string>)
    ensures |r| == |clips| && forall i :: 0 <= i < |r| ==> r[i] == clips[i].value.name
  {
    seq(|clips|, i requires 0 <= i < |clips| => clips[i].value.name)
  }

  function MarkNames(marks: seq<MarkCollection>): seq<string> {
    seq(|marks|, i requires 0 <= i < |marks| => marks[i].name)
  }

  function MarkKeys(marks: seq<MarkCollection>): (r: set<string>)
    ensures forall name :: name in r <==> exists i :: 0 <= i < |marks| && marks[i].name == name
  {
    set i | 0 <= i < |marks| :: marks[i].name
  }

  /** The first name that is not snake case. */
  function SnakeCase(rules: Rules, names: seq<string>): Option<NameProblem> {
    if names == [] then None
    else if !rules.nameFits(names[0]) then Some(NotSnakeCase(names[0]))
    else SnakeCase(rules, names[1..])
  }

  /** The first name an earlier one repeats. */
  function DistinctNames(names: seq<string>, seen: set<string>): Option<NameProblem> {
    if names == [] then None
    else if names[0] in seen then Some(Duplicate(names[0]))
    else DistinctNames(names[1..], seen + {names[0]})
  }

  function FirstRepeat(clips: seq<Handle<Clip>>, seen: set<nat>): Option<nat> {
    if clips == [] then None
    else if clips[0].value.id in seen then Some(clips[0].value.id)
    else FirstRepeat(clips[1..], seen + {clips[0].value.id})
  }

  /** `checked` are the names still to be held to snake case. */
  function NamesOf(rules: Rules, checked: seq<string>, s: Sequence): Option<NameProblem> {
    var snake := SnakeCase(rules, checked + MarkNames(s.marks));
    if snake.Some? then snake
    else
      var clips := DistinctNames(ClipNames(s.clips), {});
      if clips.Some? then clips else DistinctNames(MarkNames(s.marks), {})
  }

  // ---------- A whole sequence ----------

  function MarksOf(rules: Rules, marks: seq<MarkCollection>, duration: nat): Option<SequenceError> {
    if marks == [] then None
    else if exists i :: 0 <= i < |marks[0].marks| && marks[0].marks[i].time > duration
    then Some(MarkOutsideDuration(marks[0].name))
    else if exists i :: 0 <= i < |marks[0].marks| && marks[0].marks[i].caption.Some?
              && !rules.captionFits(marks[0].marks[i].caption.value)
    then Some(InvalidMarkLabel(marks[0].name))
    else MarksOf(rules, marks[1..], duration)
  }

  /** What every clip of a sequence is checked against. */
  datatype Context = Context(contents: Contents, layers: seq<Layer>, marks: set<string>, duration: nat, sampled: nat,
                             active: Option<nat>, first: Option<Clip>)

  predicate HasLayer(layers: seq<Layer>, id: nat) {
    exists i :: 0 <= i < |layers| && layers[i].id == id
  }

  /** Every check on one clip, in order. */
  function ClipOf(rules: Rules, c: Context, clip: Clip): Option<ClipProblem> {
    if !HasLayer(c.layers, clip.layer) then Some(MissingLayer)
    else if RegionOf(clip.start, clip.duration, c.duration, c.sampled).Some?
    then Some(Region(RegionOf(clip.start, clip.duration, c.duration, c.sampled).value))
    else if c.active.Some? && clip.layout != c.active.value then Some(NotInActiveLayout)
    else if c.first.Some? && c.first.value.layout != clip.layout then Some(MixedLayouts)
    else if rules.target(c.contents, clip).Some? then Some(Target(rules.target(c.contents, clip).value))
    else if rules.params(c.contents, clip, c.marks).Some?
        then Some(Params(rules.params(c.contents, clip, c.marks).value))
    else None
  }

  function ClipsOf(rules: Rules, c: Context, clips: seq<Handle<Clip>>): Option<SequenceError> {
    if clips == [] then None
    else
      var problem := ClipOf(rules, c, clips[0].value);
      if problem.Some? then Some(OfClip(clips[0].value.id, problem.value)) else ClipsOf(rules, c, clips[1..])
  }

  function ContextOf(rules: Rules, contents: Contents, s: Sequence): Context
    requires rules.activeLayout(contents).Some? && Ticks(s.duration).Some?
  {
    Context(contents, s.layers, MarkKeys(s.marks), s.duration, Ticks(s.duration).value,
            if s.id in rules.rootSequences(contents) then rules.activeLayout(contents) else None,
            if s.clips == [] then None else Some(s.clips[0].value))
  }

  /** The first thing wrong with a sequence, with every check made. */
  function SequenceOf(rules: Rules, contents: Contents, s: Sequence): Option<SequenceError> {
    if rules.activeLayout(contents).None? then Some(MissingActiveSetup)
    else if TimingOf(s).Some? then Some(Timing(TimingOf(s).value))
    else if FirstRepeat(s.clips, {}).Some? then Some(DuplicateClipId(FirstRepeat(s.clips, {}).value))
    else if rules.automationIds(s.automation).Some? then Some(AutomationIds(rules.automationIds(s.automation).value))
    else if NamesOf(rules, ClipNames(s.clips), s).Some? then Some(Name(NamesOf(rules, ClipNames(s.clips), s).value))
    else
      var layers := rules.layersAndGraph(contents, s.layers, s.graph, MarkKeys(s.marks));
      if layers.Some? then Some(Layers(layers.value))
      else
        var marks := MarksOf(rules, s.marks, s.duration);
        if marks.Some? then marks
        else
          var clips := ClipsOf(rules, ContextOf(rules, contents, s), s.clips);
          if clips.Some? then clips
          else
            var automation := rules.automation(contents, s);
            if automation.Some? then Some(Automation(automation.value)) else None
  }

  // ---------- A whole project ----------

  function WrongKey(entries: seq<Entry>): Option<nat> {
    if entries == [] then None
    else if entries[0].key != entries[0].value.id then Some(entries[0].key)
    else WrongKey(entries[1..])
  }

  function OwnershipOf(rules: Rules, p: Project): Option<Error> {
    if rules.ownershipBefore(p).Some? then Some(Ownership(rules.ownershipBefore(p).value))
    else if WrongKey(p.sequences.value).Some? then Some(StoredUnderOtherId(WrongKey(p.sequences.value).value))
    else if rules.ownershipAfter(p).Some? then Some(Ownership(rules.ownershipAfter(p).value))
    else None
  }

  function SequencesOf(rules: Rules, contents: Contents, sequences: seq<Sequence>): Option<Error> {
    if sequences == [] then None
    else
      var problem := SequenceOf(rules, contents, sequences[0]);
      if problem.Some? then Some(OfSequence(sequences[0].id, problem.value))
      else SequencesOf(rules, contents, sequences[1..])
  }

  /** The first thing wrong with a project, with every check made. */
  function ProjectOf(rules: Rules, p: Project): Option<Error> {
    var contents := ContentsOf(p);
    var ownership := OwnershipOf(rules, p);
    if ownership.Some? then ownership
    else if rules.storesBefore(contents).Some? then Some(Store(rules.storesBefore(contents).value))
    else
      var sequences := SequencesOf(rules, contents, Sequences(p));
      if sequences.Some? then sequences
      else if rules.consoles(contents).Some? then Some(Console(rules.consoles(contents).value))
      else None
  }

  // ---------- What a project that passes is like ----------

  /** The frame rate is 1 to 1000 and the duration positive, rounded to microseconds too; the clock's
      32 bits hold it, and it takes 250,000 frames at most. */
  predicate TimingFits(s: Sequence) {
    && 1 <= s.frameRate <= 1000 && 0 < (s.duration + 500) / 1000 <= 0xFFFF_FFFF
    && s.duration * s.frameRate <= 250_000 * 1_000_000_000
  }

  /** The region is not empty and ends within `sequence`, rounded to microseconds too. */
  predicate RegionFits(start: nat, duration: nat, sequence: nat) {
    && 0 < (duration + 500) / 1000 && start + duration <= sequence
    && (start + 500) / 1000 + (duration + 500) / 1000 <= (sequence + 500) / 1000
  }

  /** The clip lies on a layer of the sequence and in its time, and on the layout every clip is on. */
  predicate ClipFits(rules: Rules, contents: Contents, s: Sequence, clip: Clip)
    requires rules.activeLayout(contents).Some?
  {
    && (exists i :: 0 <= i < |s.layers| && s.layers[i].id == clip.layer)
    && RegionFits(clip.start, clip.duration, s.duration)
    && (s.id in rules.rootSequences(contents) ==> clip.layout == rules.activeLayout(contents).value)
    && (s.clips != [] ==> clip.layout == s.clips[0].value.layout)
    && rules.target(contents, clip).None? && rules.params(contents, clip, MarkKeys(s.marks)).None?
  }

  predicate DistinctIds(clips: seq<Handle<Clip>>) {
    forall i, j :: 0 <= i < j < |clips| ==> clips[i].value.id != clips[j].value.id
  }

  predicate AllDistinct(names: seq<string>) {
    forall i, j :: 0 <= i < j < |names| ==> names[i] != names[j]
  }

  /** Names of clips and of mark collections are snake case, and distinct among each. */
  predicate NamesFit(rules: Rules, s: Sequence) {
    && (forall i :: 0 <= i < |s.clips| ==> rules.nameFits(s.clips[i].value.name))
    && (forall i :: 0 <= i < |s.marks| ==> rules.nameFits(s.marks[i].name))
    && (forall i, j :: 0 <= i < j < |s.clips| ==> s.clips[i].value.name != s.clips[j].value.name)
    && forall i, j :: 0 <= i < j < |s.marks| ==> s.marks[i].name != s.marks[j].name
  }

  /** The marks lie in the sequence, and their captions are valid. */
  predicate MarksFit(rules: Rules, collection: MarkCollection, duration: nat) {
    forall i :: 0 <= i < |collection.marks| ==>
      && collection.marks[i].time <= duration
      && (collection.marks[i].caption.Some? ==> rules.captionFits(collection.marks[i].caption.value))
  }

  predicate SequenceFits(rules: Rules, contents: Contents, s: Sequence) {
    && rules.activeLayout(contents).Some? && TimingFits(s) && DistinctIds(s.clips) && NamesFit(rules, s)
    && (forall i :: 0 <= i < |s.marks| ==> MarksFit(rules, s.marks[i], s.duration))
    && (forall i :: 0 <= i < |s.clips| ==> ClipFits(rules, contents, s, s.clips[i].value))
    && rules.automationIds(s.automation).None?
    && rules.layersAndGraph(contents, s.layers, s.graph, MarkKeys(s.marks)).None?
    && rules.automation(contents, s).None?
  }

  /** Every sequence, in the store under its own id or owned in place, fits, and so does the rest. */
  predicate ProjectFits(rules: Rules, p: Project) {
    && (forall i :: 0 <= i < |p.sequences.value| ==>
          && p.sequences.value[i].key == p.sequences.value[i].value.id
          && SequenceFits(rules, ContentsOf(p), p.sequences.value[i].value))
    && (forall i :: 0 <= i < |p.root.value.inline| ==> SequenceFits(rules, ContentsOf(p), p.root.value.inline[i]))
    && rules.ownershipBefore(p).None? && rules.ownershipAfter(p).None?
    && rules.storesBefore(ContentsOf(p)).None? && rules.consoles(ContentsOf(p)).None?
  }

  // ---------- What an error says ----------

  predicate TimingIsSo(problem: TimingProblem, s: Sequence) {
    match problem
    case ZeroFrameRate => s.frameRate == 0
    case FrameRateAboveLimit => s.frameRate > 1000
    case ZeroDuration => s.duration == 0
    case DurationBeyondClock => (s.duration + 500) / 1000 > 0xFFFF_FFFF
    case DurationRoundsToZero => 0 < s.duration < 500
    case TooManyFrames => s.duration * s.frameRate > 250_000 * 1_000_000_000
  }

  predicate RegionIsSo(problem: RegionProblem, clip: Clip, s: Sequence) {
    match problem
    case EmptyRegion => clip.duration == 0
    case Overflow => (clip.start + clip.duration) / 1_000_000_000 >= 0x1_0000_0000_0000_0000
    case BeyondSequence => clip.start + clip.duration > s.duration
    case StartBeyondClock => (clip.start + 500) / 1000 > 0xFFFF_FFFF
    case RegionBeyondClock => (clip.duration + 500) / 1000 > 0xFFFF_FFFF
    case RoundsToZero => 0 < clip.duration < 500
    case EndBeyondAfterRounding =>
      (clip.start + 500) / 1000 + (clip.duration + 500) / 1000 > (s.duration + 500) / 1000
  }

  predicate ClipIsSo(rules: Rules, contents: Contents, s: Sequence, clip: Clip, problem: ClipProblem) {
    match problem
    case MissingLayer => forall i :: 0 <= i < |s.layers| ==> s.layers[i].id != clip.layer
    case Region(region) => RegionIsSo(region, clip, s)
    case NotInActiveLayout => s.id in rules.rootSequences(contents) && rules.activeLayout(contents) != Some(clip.layout)
    case MixedLayouts => s.clips != [] && clip.layout != s.clips[0].value.layout
    case Target(target) => rules.target(contents, clip) == Some(target)
    case Params(params) => rules.params(contents, clip, MarkKeys(s.marks)) == Some(params)
  }

  ghost predicate NameIsSo(rules: Rules, s: Sequence, problem: NameProblem) {
    match problem
    case NotSnakeCase(name) =>
      && !rules.nameFits(name)
      && ((exists i :: 0 <= i < |s.clips| && s.clips[i].value.name == name)
          || exists i :: 0 <= i < |s.marks| && s.marks[i].name == name)
    case Duplicate(name) =>
      || (exists i, j :: 0 <= i < j < |s.clips| && s.clips[i].value.name == s.clips[j].value.name == name)
      || exists i, j :: 0 <= i < j < |s.marks| && s.marks[i].name == s.marks[j].name == name
  }

  ghost predicate SequenceIsSo(rules: Rules, contents: Contents, s: Sequence, error: SequenceError) {
    match error
    case MissingActiveSetup => rules.activeLayout(contents).None?
    case Timing(timing) => TimingIsSo(timing, s)
    case DuplicateClipId(id) =>
      exists i, j :: 0 <= i < j < |s.clips| && s.clips[i].value.id == s.clips[j].value.id == id
    case AutomationIds(ids) => rules.automationIds(s.automation) == Some(ids)
    case Name(names) => NameIsSo(rules, s, names)
    case Layers(layers) => rules.layersAndGraph(contents, s.layers, s.graph, MarkKeys(s.marks)) == Some(layers)
    case MarkOutsideDuration(name) =>
      exists i, k :: 0 <= i < |s.marks| && s.marks[i].name == name
                     && 0 <= k < |s.marks[i].marks| && s.marks[i].marks[k].time > s.duration
    case InvalidMarkLabel(name) =>
      exists i, k :: 0 <= i < |s.marks| && s.marks[i].name == name && 0 <= k < |s.marks[i].marks|
                     && s.marks[i].marks[k].caption.Some? && !rules.captionFits(s.marks[i].marks[k].caption.value)
    case OfClip(id, problem) =>
      exists i :: 0 <= i < |s.clips| && s.clips[i].value.id == id
                  && ClipIsSo(rules, contents, s, s.clips[i].value, problem)
    case Automation(automation) => rules.automation(contents, s) == Some(automation)
  }

  ghost predicate ErrorIsSo(rules: Rules, p: Project, error: Error) {
    match error
    case Ownership(ownership) =>
      rules.ownershipBefore(p) == Some(ownership) || rules.ownershipAfter(p) == Some(ownership)
    case StoredUnderOtherId(key) =>
      exists i :: 0 <= i < |p.sequences.value| && p.sequences.value[i].key == key != p.sequences.value[i].value.id
    case Store(store) => rules.storesBefore(ContentsOf(p)) == Some(store)
    case OfSequence(id, problem) =>
      exists s :: s in Sequences(p) && s.id == id && SequenceIsSo(rules, ContentsOf(p), s, problem)
    case Console(console) => rules.consoles(ContentsOf(p)) == Some(console)
  }

  // ---------- The checks find it ----------

  lemma FrameCountWithin(s: Sequence)
    ensures FrameCount(s) > MAX_SEQUENCE_FRAME_COUNT <==> s.duration * s.frameRate > 250_000 * 1_000_000_000
  {
    var product := s.duration * s.frameRate;
    assert FrameCount(s) == (product + NANOS_PER_SECOND - 1) / NANOS_PER_SECOND;
  }

  lemma TimingFitsIff(s: Sequence)
    ensures TimingOf(s).None? <==> TimingFits(s)
    ensures TimingOf(s).Some? ==> TimingIsSo(TimingOf(s).value, s)
    ensures TimingFits(s) ==> Ticks(s.duration) == Some((s.duration + 500) / 1000)
  {
    FrameCountWithin(s);
  }

  lemma {:induction false} RegionFitsIff(clip: Clip, s: Sequence)
    requires TimingFits(s)
    ensures var r := RegionOf(clip.start, clip.duration, s.duration, (s.duration + 500) / 1000);
            && (r.None? <==> RegionFits(clip.start, clip.duration, s.duration))
            && (r.Some? ==> RegionIsSo(r.value, clip, s))
  {
  }

  lemma {:induction false} FirstRepeatIs(clips: seq<Handle<Clip>>, seen: set<nat>)
    ensures FirstRepeat(clips, seen).None? <==>
            DistinctIds(clips) && forall i :: 0 <= i < |clips| ==> clips[i].value.id !in seen
    ensures FirstRepeat(clips, seen).Some? ==>
              exists j :: 0 <= j < |clips| && clips[j].value.id == FirstRepeat(clips, seen).value
                          && (clips[j].value.id in seen
                              || exists i :: 0 <= i < j && clips[i].value.id == clips[j].value.id)
  {
    if clips != [] && clips[0].value.id !in seen {
      var rest, more := clips[1..], seen + {clips[0].value.id};
      FirstRepeatIs(rest, more);
      if FirstRepeat(rest, more).None? {
        forall i, j | 0 <= i < j < |clips| ensures clips[i].value.id != clips[j].value.id {
          assert rest[j - 1] == clips[j];
          if i > 0 { assert rest[i - 1] == clips[i]; }
        }
        forall i | 0 <= i < |clips| ensures clips[i].value.id !in seen {
          if i > 0 { assert rest[i - 1] == clips[i]; }
        }
      } else {
        var j :| 0 <= j < |rest| && rest[j].value.id == FirstRepeat(rest, more).value
                 && (rest[j].value.id in more || exists i :: 0 <= i < j && rest[i].value.id == rest[j].value.id);
        assert clips[j + 1] == rest[j];
        if rest[j].value.id !in more {
          var i :| 0 <= i < j && rest[i].value.id == rest[j].value.id;
          assert clips[i + 1] == rest[i];
        }
      }
    }
  }

  lemma {:induction false} DistinctNamesIs(names: seq<string>, seen: set<string>)
    ensures DistinctNames(names, seen).None? <==>
            AllDistinct(names) && forall i :: 0 <= i < |names| ==> names[i] !in seen
    ensures DistinctNames(names, seen).Some? ==>
              exists j :: 0 <= j < |names| && DistinctNames(names, seen).value == Duplicate(names[j])
                          && (names[j] in seen || exists i :: 0 <= i < j && names[i] == names[j])
  {
    if names != [] && names[0] !in seen {
      var rest, more := names[1..], seen + {names[0]};
      DistinctNamesIs(rest, more);
      if DistinctNames(rest, more).None? {
        forall i, j | 0 <= i < j < |names| ensures names[i] != names[j] {
          assert rest[j - 1] == names[j];
          if i > 0 { assert rest[i - 1] == names[i]; }
        }
        forall i | 0 <= i < |names| ensures names[i] !in seen {
          if i > 0 { assert rest[i - 1] == names[i]; }
        }
      } else {
        var j :| 0 <= j < |rest| && DistinctNames(rest, more).value == Duplicate(rest[j])
                 && (rest[j] in more || exists i :: 0 <= i < j && rest[i] == rest[j]);
        assert names[j + 1] == rest[j];
        if rest[j] !in more {
          var i :| 0 <= i < j && rest[i] == rest[j];
          assert names[i + 1] == rest[i];
        }
      }
    }
  }

  lemma {:induction false} SnakeCaseIs(rules: Rules, names: seq<string>)
    ensures SnakeCase(rules, names).None? <==> forall i :: 0 <= i < |names| ==> rules.nameFits(names[i])
    ensures SnakeCase(rules, names).Some? ==>
              exists i :: 0 <= i < |names| && SnakeCase(rules, names).value == NotSnakeCase(names[i])
                          && !rules.nameFits(names[i])
  {
    if names != [] {
      SnakeCaseIs(rules, names[1..]);
      forall i | 1 <= i < |names| ensures names[i] == names[1..][i - 1] {}
    }
  }

  lemma {:induction false} SnakeCaseOfBoth(rules: Rules, s: Sequence)
    ensures var snake := SnakeCase(rules, ClipNames(s.clips) + MarkNames(s.marks));
            && (snake.None? <==>
                (forall i :: 0 <= i < |s.clips| ==> rules.nameFits(s.clips[i].value.name))
                && forall i :: 0 <= i < |s.marks| ==> rules.nameFits(s.marks[i].name))
            && (snake.Some? ==> NameIsSo(rules, s, snake.value))
  {
    var clips, marks := ClipNames(s.clips), MarkNames(s.marks);
    SnakeCaseIs(rules, clips + marks);
    forall i | 0 <= i < |clips| ensures (clips + marks)[i] == s.clips[i].value.name {}
    forall i | 0 <= i < |marks| ensures (clips + marks)[|clips| + i] == marks[i] == s.marks[i].name {}
  }

  lemma {:induction false} DistinctClipNames(rules: Rules, s: Sequence)
    ensures var r := DistinctNames(ClipNames(s.clips), {});
            && (r.None? <==> forall i, j :: 0 <= i < j < |s.clips| ==> s.clips[i].value.name != s.clips[j].value.name)
            && (r.Some? ==> NameIsSo(rules, s, r.value))
  {
    var clips := ClipNames(s.clips);
    DistinctNamesIs(clips, {});
    if AllDistinct(clips) {
      forall i, j | 0 <= i < j < |s.clips| ensures s.clips[i].value.name != s.clips[j].value.name {
        assert clips[i] != clips[j];
      }
    }
  }

  lemma {:induction false} DistinctMarkNames(rules: Rules, s: Sequence)
    ensures var r := DistinctNames(MarkNames(s.marks), {});
            && (r.None? <==> forall i, j :: 0 <= i < j < |s.marks| ==> s.marks[i].name != s.marks[j].name)
            && (r.Some? ==> NameIsSo(rules, s, r.value))
  {
    var marks := MarkNames(s.marks);
    DistinctNamesIs(marks, {});
    if AllDistinct(marks) {
      forall i, j | 0 <= i < j < |s.marks| ensures s.marks[i].name != s.marks[j].name {
        assert marks[i] != marks[j];
      }
    }
  }

  lemma {:induction false} NamesFitIff(rules: Rules, s: Sequence)
    ensures NamesOf(rules, ClipNames(s.clips), s).None? <==> NamesFit(rules, s)
    ensures NamesOf(rules, ClipNames(s.clips), s).Some? ==>
              NameIsSo(rules, s, NamesOf(rules, ClipNames(s.clips), s).value)
  {
    SnakeCaseOfBoth(rules, s);
    DistinctClipNames(rules, s);
    DistinctMarkNames(rules, s);
  }

  lemma {:induction false} MarksFitIff(rules: Rules, s: Sequence, i: nat)
    requires i <= |s.marks|
    ensures MarksOf(rules, s.marks[i..], s.duration).None? <==>
            forall k :: i <= k < |s.marks| ==> MarksFit(rules, s.marks[k], s.duration)
    ensures forall contents :: MarksOf(rules, s.marks[i..], s.duration).Some? ==>
              SequenceIsSo(rules, contents, s, MarksOf(rules, s.marks[i..], s.duration).value)
    decreases |s.marks| - i
  {
    if i < |s.marks| {
      assert s.marks[i..][0] == s.marks[i] && s.marks[i..][1..] == s.marks[i + 1..];
      MarksFitIff(rules, s, i + 1);
    }
  }

  lemma {:induction false} ClipFitsIff(rules: Rules, contents: Contents, s: Sequence, clip: Clip)
    requires rules.activeLayout(contents).Some? && TimingFits(s) && Ticks(s.duration).Some?
    ensures var r := ClipOf(rules, ContextOf(rules, contents, s), clip);
            && (r.None? <==> ClipFits(rules, contents, s, clip))
            && (r.Some? ==> ClipIsSo(rules, contents, s, clip, r.value))
  {
    RegionFitsIff(clip, s);
    TimingFitsIff(s);
  }

  lemma {:induction false} ClipsFitIff(rules: Rules, contents: Contents, s: Sequence, i: nat)
    requires rules.activeLayout(contents).Some? && TimingFits(s) && Ticks(s.duration).Some? && i <= |s.clips|
    ensures ClipsOf(rules, ContextOf(rules, contents, s), s.clips[i..]).None? <==>
            forall k :: i <= k < |s.clips| ==> ClipFits(rules, contents, s, s.clips[k].value)
    ensures ClipsOf(rules, ContextOf(rules, contents, s), s.clips[i..]).Some? ==>
              SequenceIsSo(rules, contents, s, ClipsOf(rules, ContextOf(rules, contents, s), s.clips[i..]).value)
    decreases |s.clips| - i
  {
    if i < |s.clips| {
      assert s.clips[i..][0] == s.clips[i] && s.clips[i..][1..] == s.clips[i + 1..];
      ClipFitsIff(rules, contents, s, s.clips[i].value);
      ClipsFitIff(rules, contents, s, i + 1);
    }
  }

  /** A sequence passes exactly when it fits; otherwise what is reported of it is so. */
  lemma {:induction false} SequenceFitsIff(rules: Rules, contents: Contents, s: Sequence)
    ensures SequenceOf(rules, contents, s).None? <==> SequenceFits(rules, contents, s)
    ensures SequenceOf(rules, contents, s).Some? ==>
              SequenceIsSo(rules, contents, s, SequenceOf(rules, contents, s).value)
  {
    TimingFitsIff(s);
    FirstRepeatIs(s.clips, {});
    NamesFitIff(rules, s);
    assert s.marks[0..] == s.marks && s.clips[0..] == s.clips;
    MarksFitIff(rules, s, 0);
    if rules.activeLayout(contents).Some? && TimingOf(s).None? { ClipsFitIff(rules, contents, s, 0); }
  }

  lemma {:induction false} WrongKeyIs(entries: seq<Entry>)
    ensures WrongKey(entries).None? <==> forall i :: 0 <= i < |entries| ==> entries[i].key == entries[i].value.id
    ensures WrongKey(entries).Some? ==>
              exists i :: 0 <= i < |entries| && entries[i].key == WrongKey(entries).value != entries[i].value.id
  {
    if entries != [] {
      WrongKeyIs(entries[1..]);
      forall i | 1 <= i < |entries| ensures entries[i] == entries[1..][i - 1] {}
    }
  }

  lemma {:induction false} SequencesFitIff(rules: Rules, contents: Contents, sequences: seq<Sequence>)
    ensures SequencesOf(rules, contents, sequences).None? <==>
            forall i :: 0 <= i < |sequences| ==> SequenceFits(rules, contents, sequences[i])
    ensures SequencesOf(rules, contents, sequences).Some? ==>
              exists i :: 0 <= i < |sequences| && SequencesOf(rules, contents, sequences).value.OfSequence?
                          && sequences[i].id == SequencesOf(rules, contents, sequences).value.id
                          && SequenceIsSo(rules, contents, sequences[i],
                                          SequencesOf(rules, contents, sequences).value.sequence)
  {
    if sequences != [] {
      SequenceFitsIff(rules, contents, sequences[0]);
      SequencesFitIff(rules, contents, sequences[1..]);
      forall i | 1 <= i < |sequences| ensures sequences[i] == sequences[1..][i - 1] {}
    }
  }

  /** Those in the store and those owned in place are all sequences there are. */
  lemma {:induction false} AllSequencesFit(rules: Rules, p: Project)
    ensures var r := SequencesOf(rules, ContentsOf(p), Sequences(p));
            && (r.None? <==>
                && (forall i :: 0 <= i < |p.sequences.value| ==>
                      SequenceFits(rules, ContentsOf(p), p.sequences.value[i].value))
                && forall i :: 0 <= i < |p.root.value.inline| ==>
                     SequenceFits(rules, ContentsOf(p), p.root.value.inline[i]))
            && (r.Some? ==> ErrorIsSo(rules, p, r.value))
  {
    var stored, inline, all := p.sequences.value, p.root.value.inline, Sequences(p);
    SequencesFitIff(rules, ContentsOf(p), all);
    forall i | 0 <= i < |stored| ensures all[i] == stored[i].value {}
    forall i | 0 <= i < |inline| ensures all[|stored| + i] == inline[i] {}
  }

  /** A project passes exactly when it fits, on the fields of its sequences; otherwise what is
      reported of it is so. */
  lemma {:induction false} ProjectFitsIff(rules: Rules, p: Project)
    ensures ProjectOf(rules, p).None? <==> ProjectFits(rules, p)
    ensures ProjectOf(rules, p).Some? ==> ErrorIsSo(rules, p, ProjectOf(rules, p).value)
  {
    WrongKeyIs(p.sequences.value);
    AllSequencesFit(rules, p);
  }

  // ---------- What is unchanged since a validated project ----------

  type Unchanged = map<nat, Handle<Clip>>

  /** Clips by id, the last of several with one id. */
  function ById(clips: seq<Handle<Clip>>): Unchanged {
    if clips == [] then map[]
    else
      var last := clips[|clips| - 1];
      ById(clips[..|clips| - 1])[last.value.id := last]
  }

  /** The clips of `previous`, when the layers and marks they were checked against are
      still the same. */
  function UnchangedIn(s: Sequence, previous: Option<Sequence>): Unchanged {
    if previous.Some? && previous.value.layers == s.layers
        && previous.value.marks == s.marks then ById(previous.value.clips)
    else map[]
  }

  /** The clip is still the allocation it was. */
  predicate IsUnchanged(kept: Unchanged, clip: Handle<Clip>) {
    clip.value.id in kept && kept[clip.value.id].address == clip.address
  }

  /** Clips in one allocation are one clip. */
  ghost predicate Coherent(a: seq<Handle<Clip>>, b: seq<Handle<Clip>>) {
    forall i, j :: 0 <= i < |a| && 0 <= j < |b| && a[i].address == b[j].address ==> a[i].value == b[j].value
  }

  /** `previous` is this sequence as it passed every check against the same contents. */
  ghost predicate PassedBefore(rules: Rules, contents: Contents, s: Sequence, previous: Sequence) {
    SequenceOf(rules, contents, previous).None? && previous.id == s.id && Coherent(s.clips, previous.clips)
  }

  lemma {:induction false} ByIdHolds(clips: seq<Handle<Clip>>, id: nat)
    requires id in ById(clips)
    ensures exists j :: 0 <= j < |clips| && clips[j] == ById(clips)[id]
  {
    var init, last := clips[..|clips| - 1], clips[|clips| - 1];
    if last.value.id == id {
      assert clips[|clips| - 1] == last;
    } else {
      ByIdHolds(init, id);
      var j :| 0 <= j < |init| && init[j] == ById(init)[id];
      assert clips[j] == init[j];
    }
  }

  /** An unchanged clip is a clip of the previous sequence, with the same contents. */
  lemma UnchangedWasThere(s: Sequence, previous: Sequence, clip: Handle<Clip>) returns (j: nat)
    requires clip in s.clips && Coherent(s.clips, previous.clips) && IsUnchanged(UnchangedIn(s, Some(previous)), clip)
    ensures previous.layers == s.layers && previous.marks == s.marks
    ensures j < |previous.clips| && previous.clips[j].value == clip.value
  {
    ByIdHolds(previous.clips, clip.value.id);
    j :| 0 <= j < |previous.clips| && previous.clips[j] == ById(previous.clips)[clip.value.id];
    var i :| 0 <= i < |s.clips| && s.clips[i] == clip;
  }

  // ---------- What passing means ----------

  lemma {:induction false} ClipPassed(rules: Rules, c: Context, clips: seq<Handle<Clip>>, j: nat)
    requires ClipsOf(rules, c, clips).None? && j < |clips|
    ensures ClipOf(rules, c, clips[j].value).None?
  {
    if j > 0 { ClipPassed(rules, c, clips[1..], j - 1); }
  }

  lemma {:induction false} NamePassed(rules: Rules, names: seq<string>, rest: seq<string>, j: nat)
    requires SnakeCase(rules, names + rest).None? && j < |names|
    ensures rules.nameFits(names[j])
  {
    assert (names + rest)[0] == names[0];
    if j > 0 {
      assert (names + rest)[1..] == names[1..] + rest;
      NamePassed(rules, names[1..], rest, j - 1);
    }
  }

  /** A clip of a sequence that passed passes there, and its name fits. */
  lemma PassedClip(rules: Rules, contents: Contents, previous: Sequence, j: nat)
    requires SequenceOf(rules, contents, previous).None? && j < |previous.clips|
    ensures rules.activeLayout(contents).Some? && Ticks(previous.duration).Some?
    ensures ClipOf(rules, ContextOf(rules, contents, previous), previous.clips[j].value).None?
    ensures rules.nameFits(previous.clips[j].value.name)
  {
    ClipPassed(rules, ContextOf(rules, contents, previous), previous.clips, j);
    NamePassed(rules, ClipNames(previous.clips), MarkNames(previous.marks), j);
  }

  // ---------- The shortcuts agree ----------

  /** The names of the clips not unchanged. */
  function ChangedNames(kept: Unchanged, clips: seq<Handle<Clip>>): seq<string> {
    if clips == [] then []
    else (if IsUnchanged(kept, clips[0]) then [] else [clips[0].value.name]) + ChangedNames(kept, clips[1..])
  }

  lemma {:induction false} SnakeCons(rules: Rules, name: string, rest: seq<string>)
    ensures SnakeCase(rules, [name] + rest)
         == if rules.nameFits(name) then SnakeCase(rules, rest) else Some(NotSnakeCase(name))
  {
    assert ([name] + rest)[1..] == rest;
  }

  /** Leaving out names that fit finds the same first name that does not. */
  lemma {:induction false} FittingNamesSkip(rules: Rules, kept: Unchanged, clips: seq<Handle<Clip>>, rest: seq<string>)
    requires forall i :: 0 <= i < |clips| && IsUnchanged(kept, clips[i]) ==> rules.nameFits(clips[i].value.name)
    ensures SnakeCase(rules, ChangedNames(kept, clips) + rest) == SnakeCase(rules, ClipNames(clips) + rest)
  {
    if clips == [] {
      assert ChangedNames(kept, clips) == ClipNames(clips);
    } else {
      var name, changed, all := clips[0].value.name, ChangedNames(kept, clips[1..]), ClipNames(clips[1..]);
      FittingNamesSkip(rules, kept, clips[1..], rest);
      SnakeCons(rules, name, all + rest);
      SnakeCons(rules, name, changed + rest);
      assert ClipNames(clips) + rest == [name] + (all + rest);
      assert ChangedNames(kept, clips) + rest
          == if IsUnchanged(kept, clips[0]) then changed + rest else [name] + (changed + rest);
    }
  }

  lemma NamesAgree(rules: Rules, contents: Contents, s: Sequence, previous: Option<Sequence>)
    requires previous.Some? ==> PassedBefore(rules, contents, s, previous.value)
    ensures NamesOf(rules, ChangedNames(UnchangedIn(s, previous), s.clips), s) == NamesOf(rules, ClipNames(s.clips), s)
  {
    var kept := UnchangedIn(s, previous);
    forall i | 0 <= i < |s.clips| && IsUnchanged(kept, s.clips[i]) ensures rules.nameFits(s.clips[i].value.name) {
      var j := UnchangedWasThere(s, previous.value, s.clips[i]);
      PassedClip(rules, contents, previous.value, j);
    }
    FittingNamesSkip(rules, kept, s.clips, MarkNames(s.marks));
  }

  /** The checks made on a clip when some may be skipped. */
  function ClipSince(rules: Rules, c: Context, kept: Unchanged, firstUnchanged: bool,
                     clip: Handle<Clip>): Option<ClipProblem> {
    var region := RegionOf(clip.value.start, clip.value.duration, c.duration, c.sampled);
    if firstUnchanged && IsUnchanged(kept, clip) then if region.Some? then Some(Region(region.value)) else None
    else if !HasLayer(c.layers, clip.value.layer) then Some(MissingLayer)
    else if region.Some? then Some(Region(region.value))
    else if c.active.Some? && clip.value.layout != c.active.value then Some(NotInActiveLayout)
    else if c.first.Some? && c.first.value.layout != clip.value.layout then Some(MixedLayouts)
    else if IsUnchanged(kept, clip) then None
    else if rules.target(c.contents, clip.value).Some? then Some(Target(rules.target(c.contents, clip.value).value))
    else if rules.params(c.contents, clip.value, c.marks).Some?
        then Some(Params(rules.params(c.contents, clip.value, c.marks).value))
    else None
  }

  /** Skipped or not, the checks on a clip find the same. */
  lemma {:induction false} ClipAgrees(rules: Rules, contents: Contents, s: Sequence, previous: Option<Sequence>,
                                      clip: Handle<Clip>)
    requires previous.Some? ==> PassedBefore(rules, contents, s, previous.value)
    requires rules.activeLayout(contents).Some? && Ticks(s.duration).Some? && clip in s.clips
    ensures var kept := UnchangedIn(s, previous);
            ClipSince(rules, ContextOf(rules, contents, s), kept, IsUnchanged(kept, s.clips[0]), clip)
            == ClipOf(rules, ContextOf(rules, contents, s), clip.value)
  {
    var kept := UnchangedIn(s, previous);
    if IsUnchanged(kept, clip) {
      var j := UnchangedWasThere(s, previous.value, clip);
      PassedClip(rules, contents, previous.value, j);
      if IsUnchanged(kept, s.clips[0]) {
        var k := UnchangedWasThere(s, previous.value, s.clips[0]);
        PassedClip(rules, contents, previous.value, k);
      }
    }
  }

  method ClipsSince(rules: Rules, contents: Contents, s: Sequence, previous: Option<Sequence>)
    returns (r: Option<SequenceError>)
    requires previous.Some? ==> PassedBefore(rules, contents, s, previous.value)
    requires rules.activeLayout(contents).Some? && Ticks(s.duration).Some?
    ensures r == ClipsOf(rules, ContextOf(rules, contents, s), s.clips)
  {
    var kept, c := UnchangedIn(s, previous), ContextOf(rules, contents, s);
    var firstUnchanged := s.clips == [] || IsUnchanged(kept, s.clips[0]);
    var i := 0;
    assert s.clips[0..] == s.clips;
    while i < |s.clips|
      invariant 0 <= i <= |s.clips| && ClipsOf(rules, c, s.clips) == ClipsOf(rules, c, s.clips[i..])
    {
      ClipAgrees(rules, contents, s, previous, s.clips[i]);
      assert s.clips[i..][1..] == s.clips[i + 1..];
      var problem := ClipSince(rules, c, kept, firstUnchanged, s.clips[i]);
      if problem.Some? {
        return Some(OfClip(s.clips[i].value.id, problem.value));
      }
      i := i + 1;
    }
    r := None;
  }

  /** A sequence, checked since `previous`: what is skipped changes nothing, neither whether
      it passes nor the first thing found wrong. */
  method ValidateSequenceSince(rules: Rules, contents: Contents, s: Sequence, previous: Option<Sequence>)
    returns (r: Option<SequenceError>)
    requires previous.Some? ==> PassedBefore(rules, contents, s, previous.value)
    ensures r == SequenceOf(rules, contents, s)
  {
    if rules.activeLayout(contents).None? {
      return Some(MissingActiveSetup);
    }
    if TimingOf(s).Some? {
      return Some(Timing(TimingOf(s).value));
    }
    var repeated := FirstRepeat(s.clips, {});
    if repeated.Some? {
      return Some(DuplicateClipId(repeated.value));
    }
    var ids := rules.automationIds(s.automation);
    if ids.Some? {
      return Some(AutomationIds(ids.value));
    }
    NamesAgree(rules, contents, s, previous);
    var names := NamesOf(rules, ChangedNames(UnchangedIn(s, previous), s.clips), s);
    if names.Some? {
      return Some(Name(names.value));
    }
    var layers := rules.layersAndGraph(contents, s.layers, s.graph, MarkKeys(s.marks));
    if layers.Some? {
      return Some(Layers(layers.value));
    }
    var marks := MarksOf(rules, s.marks, s.duration);
    if marks.Some? {
      return marks;
    }
    r := ClipsSince(rules, contents, s, previous);
    if r.Some? {
      return;
    }
    var automation := rules.automation(contents, s);
    r := if automation.Some? then Some(Automation(automation.value)) else None;
  }

  // ---------- Projects ----------

  /** Every store but the sequences is the same allocation. */
  predicate OnlySequencesDiffer(a: Project, b: Project) {
    && a.root.address == b.root.address && |a.others| == |b.others|
    && forall i :: 0 <= i < |a.others| ==> a.others[i].address == b.others[i].address
  }

  /** What lies in one allocation is the same in both projects. */
  ghost predicate CoherentProjects(a: Project, b: Project) {
    && |a.others| == |b.others| == OTHER_STORES
    && (a.root.address == b.root.address ==> a.root.value == b.root.value)
    && (forall i :: 0 <= i < OTHER_STORES && a.others[i].address == b.others[i].address
         ==> a.others[i].value == b.others[i].value)
    && forall s, t :: s in Sequences(a) && t in Sequences(b) ==> Coherent(s.clips, t.clips)
  }

  lemma SameContents(a: Project, b: Project)
    requires CoherentProjects(a, b) && OnlySequencesDiffer(a, b)
    ensures ContentsOf(a) == ContentsOf(b) && a.root.value == b.root.value
  {
    assert Values(a.others) == Values(b.others);
  }

  lemma {:induction false} FoundEntry(entries: seq<Entry>, key: nat)
    requires FindEntry(entries, key).Some? && WrongKey(entries).None?
    ensures FindEntry(entries, key).value in EntryValues(entries) && FindEntry(entries, key).value.id == key
  {
    if entries[0].key != key {
      FoundEntry(entries[1..], key);
      assert EntryValues(entries) == [entries[0].value] + EntryValues(entries[1..]);
    } else {
      assert EntryValues(entries)[0] == entries[0].value;
    }
  }

  lemma {:induction false} FoundInline(inline: seq<Sequence>, id: nat)
    requires FindInline(inline, id).Some?
    ensures FindInline(inline, id).value in inline && FindInline(inline, id).value.id == id
  {
    if inline[0].id != id {
      FoundInline(inline[1..], id);
      assert inline == [inline[0]] + inline[1..];
    }
  }

  lemma Found(p: Project, id: nat)
    requires FindSequence(p, id).Some? && WrongKey(p.sequences.value).None?
    ensures FindSequence(p, id).value in Sequences(p) && FindSequence(p, id).value.id == id
  {
    if FindEntry(p.sequences.value, id).Some? {
      FoundEntry(p.sequences.value, id);
    } else {
      FoundInline(p.root.value.inline, id);
    }
  }

  lemma {:induction false} SequencePassed(rules: Rules, contents: Contents, sequences: seq<Sequence>, s: Sequence)
    requires SequencesOf(rules, contents, sequences).None? && s in sequences
    ensures SequenceOf(rules, contents, s).None?
  {
    if s != sequences[0] {
      assert sequences == [sequences[0]] + sequences[1..];
      SequencePassed(rules, contents, sequences[1..], s);
    }
  }

  /** The sequence a valid previous project has under an id passed there. */
  lemma FoundPassed(rules: Rules, project: Project, previous: Project, s: Sequence)
    requires ProjectOf(rules, previous).None? && CoherentProjects(project, previous)
             && OnlySequencesDiffer(project, previous)
    requires s in Sequences(project) && FindSequence(previous, s.id).Some?
    ensures PassedBefore(rules, ContentsOf(project), s, FindSequence(previous, s.id).value)
  {
    SameContents(project, previous);
    Found(previous, s.id);
    SequencePassed(rules, ContentsOf(previous), Sequences(previous), FindSequence(previous, s.id).value);
  }

  /** The sequence `s` is checked since. */
  function Before(previous: Option<Project>, s: Sequence): Option<Sequence> {
    if previous.None? then None else FindSequence(previous.value, s.id)
  }

  ghost predicate Prepared(rules: Rules, contents: Contents, previous: Option<Project>, s: Sequence) {
    Before(previous, s).Some? ==> PassedBefore(rules, contents, s, Before(previous, s).value)
  }

  lemma {:induction false} SequencesStep(rules: Rules, contents: Contents, sequences: seq<Sequence>, i: nat)
    requires i < |sequences|
    ensures SequencesOf(rules, contents, sequences[i..])
         == if SequenceOf(rules, contents, sequences[i]).Some?
            then Some(OfSequence(sequences[i].id, SequenceOf(rules, contents, sequences[i]).value))
            else SequencesOf(rules, contents, sequences[i + 1..])
  {
    assert sequences[i..][1..] == sequences[i + 1..];
  }

  /** Each sequence since what the previous project, if there is one, has under its id. */
  method ValidateSequences(rules: Rules, contents: Contents, sequences: seq<Sequence>, previous: Option<Project>)
    returns (r: Option<Error>)
    requires forall i :: 0 <= i < |sequences| ==> Prepared(rules, contents, previous, sequences[i])
    ensures r == SequencesOf(rules, contents, sequences)
  {
    var i := 0;
    assert sequences[0..] == sequences;
    while i < |sequences|
      invariant 0 <= i <= |sequences|
      invariant SequencesOf(rules, contents, sequences) == SequencesOf(rules, contents, sequences[i..])
    {
      SequencesStep(rules, contents, sequences, i);
      assert Prepared(rules, contents, previous, sequences[i]);
      var problem := ValidateSequenceSince(rules, contents, sequences[i], Before(previous, sequences[i]));
      if problem.Some? {
        return Some(OfSequence(sequences[i].id, problem.value));
      }
      i := i + 1;
    }
    r := None;
  }

  method ValidateProject(rules: Rules, project: Project) returns (r: Option<Error>)
    ensures r == ProjectOf(rules, project)
    ensures r.None? <==> ProjectFits(rules, project)
    ensures r.Some? ==> ErrorIsSo(rules, project, r.value)
  {
    ProjectFitsIff(rules, project);
    var contents := ContentsOf(project);
    r := OwnershipOf(rules, project);
    if r.Some? {
      return;
    }
    if rules.storesBefore(contents).Some? {
      return Some(Store(rules.storesBefore(contents).value));
    }
    r := ValidateSequences(rules, contents, Sequences(project), None);
    if r.Some? {
      return;
    }
    r := if rules.consoles(contents).Some? then Some(Console(rules.consoles(contents).value)) else None;
  }

  /** What passed before and cannot have changed still passes. */
  lemma OthersStillPass(rules: Rules, project: Project, previous: Project)
    requires ProjectOf(rules, previous).None? && CoherentProjects(project, previous)
             && OnlySequencesDiffer(project, previous)
    ensures rules.storesBefore(ContentsOf(project)).None? && rules.consoles(ContentsOf(project)).None?
  {
    SameContents(project, previous);
  }

  lemma AllPrepared(rules: Rules, project: Project, previous: Project)
    requires ProjectOf(rules, previous).None? && CoherentProjects(project, previous)
             && OnlySequencesDiffer(project, previous)
    ensures forall i :: 0 <= i < |Sequences(project)| ==>
              Prepared(rules, ContentsOf(project), Some(previous), Sequences(project)[i])
  {
    forall i | 0 <= i < |Sequences(project)|
      ensures Prepared(rules, ContentsOf(project), Some(previous), Sequences(project)[i])
    {
      if FindSequence(previous, Sequences(project)[i].id).Some? {
        FoundPassed(rules, project, previous, Sequences(project)[i]);
      }
    }
  }

  /** An edit of a project that passed is found to have exactly what the whole check finds,
      though only sequences are checked again when nothing else changed. */
  method ValidateProjectEdit(rules: Rules, project: Project, previous: Project) returns (r: Option<Error>)
    requires ProjectOf(rules, previous).None? && CoherentProjects(project, previous)
    ensures r == ProjectOf(rules, project)
    ensures r.None? <==> ProjectFits(rules, project)
    ensures r.Some? ==> ErrorIsSo(rules, project, r.value)
  {
    ProjectFitsIff(rules, project);
    if !OnlySequencesDiffer(project, previous) {
      r := ValidateProject(rules, project);
      return;
    }
    OthersStillPass(rules, project, previous);
    r := OwnershipOf(rules, project);
    if r.Some? {
      return;
    }
    AllPrepared(rules, project, previous);
    r := ValidateSequences(rules, ContentsOf(project), Sequences(project), Some(previous));
  }
}
