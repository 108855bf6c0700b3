/** Projects in memory: stores and clips shared between copies, detached before they are
    written, and edits that either leave a valid project or change nothing. */
module Projects {
  import opened Options
  import V = Validation

  // ---------- Memory ----------

  /** A sequence as a store holds it: its clips are allocations of their own. */
  datatype Stored = Stored(key: nat, rest: V.Sequence, clips: seq<nat>)

  /** What a store's allocation holds: the root and the sequence store hold sequences. */
  datatype Cell = Cell(data: V.Data, sequences: seq<Stored>)

  datatype Heap = Heap(cells: map<nat, Cell>, clips: map<nat, V.Clip>, next: nat)
  {
    /** Fresh allocations lie after every other. */
    ghost predicate Ordered() {
      (forall a :: a in cells ==> a < next) && forall a :: a in clips ==> a < next
    }
  }

  /** A project: the allocation of each store. The root comes first, the sequences last. */
  type Stores = seq<nat>

  const STORES := 13

  const ROOT := 0

  const SEQUENCES := 12

  /** Some clip of the cell is the allocation `a`. */
  predicate Mentions(cell: Cell, a: nat) {
    exists k, j :: 0 <= k < |cell.sequences| && 0 <= j < |cell.sequences[k].clips| && cell.sequences[k].clips[j] == a
  }

  ghost predicate CellFormed(clips: map<nat, V.Clip>, cell: Cell) {
    forall k, j :: 0 <= k < |cell.sequences| && 0 <= j < |cell.sequences[k].clips|
        ==> cell.sequences[k].clips[j] in clips
  }

  ghost predicate Formed(h: Heap, p: Stores) {
    |p| == STORES && forall i :: 0 <= i < STORES ==> p[i] in h.cells && CellFormed(h.clips, h.cells[p[i]])
  }

  // ---------- What a project says, with and without its allocations ----------

  function Handles(clips: map<nat, V.Clip>, s: Stored): (r: seq<V.Handle<V.Clip>>)
    requires forall j :: 0 <= j < |s.clips| ==> s.clips[j] in clips
    ensures |r| == |s.clips| && forall j :: 0 <= j < |r| ==> r[j] == V.Handle(s.clips[j], clips[s.clips[j]])
  {
    seq(|s.clips|, j requires 0 <= j < |s.clips| => V.Handle(s.clips[j], clips[s.clips[j]]))
  }

  function Resolve(clips: map<nat, V.Clip>, cell: Cell): (r: seq<V.Entry>)
    requires CellFormed(clips, cell)
    ensures |r| == |cell.sequences|
    ensures forall k :: 0 <= k < |r|
              ==> r[k] == V.Entry(cell.sequences[k].key,
                                  cell.sequences[k].rest.(clips := Handles(clips, cell.sequences[k])))
  {
    seq(|cell.sequences|, k requires 0 <= k < |cell.sequences| =>
      V.Entry(cell.sequences[k].key, cell.sequences[k].rest.(clips := Handles(clips, cell.sequences[k]))))
  }

  /** The project as validation sees it. */
  function View(h: Heap, p: Stores): V.Project
    requires Formed(h, p)
  {
    V.Project(
      V.Handle(p[ROOT], V.Root(h.cells[p[ROOT]].data, V.EntryValues(Resolve(h.clips, h.cells[p[ROOT]])))),
      seq(V.OTHER_STORES, i requires 0 <= i < V.OTHER_STORES => V.Handle(p[i + 1], h.cells[p[i + 1]].data)),
      V.Handle(p[SEQUENCES], Resolve(h.clips, h.cells[p[SEQUENCES]])))
  }

  /** A sequence with its clips in it. */
  datatype Plain = Plain(key: nat, rest: V.Sequence, clips: seq<V.Clip>)

  datatype PlainCell = PlainCell(data: V.Data, sequences: seq<Plain>)

  function ClipsAt(clips: map<nat, V.Clip>, addresses: seq<nat>): (r: seq<V.Clip>)
    requires forall j :: 0 <= j < |addresses| ==> addresses[j] in clips
    ensures |r| == |addresses| && forall j :: 0 <= j < |r| ==> r[j] == clips[addresses[j]]
  {
    seq(|addresses|, j requires 0 <= j < |addresses| => clips[addresses[j]])
  }

  ghost function PlainOf(clips: map<nat, V.Clip>, cell: Cell): (r: PlainCell)
    requires CellFormed(clips, cell)
    ensures r.data == cell.data && |r.sequences| == |cell.sequences|
    ensures forall k :: 0 <= k < |r.sequences| ==>
              r.sequences[k] == Plain(cell.sequences[k].key, cell.sequences[k].rest,
                                      ClipsAt(clips, cell.sequences[k].clips))
  {
    PlainCell(cell.data, seq(|cell.sequences|, k requires 0 <= k < |cell.sequences| =>
      Plain(cell.sequences[k].key, cell.sequences[k].rest, ClipsAt(clips, cell.sequences[k].clips))))
  }

  /** What a project's stores hold, whatever allocations they are. */
  ghost function Says(h: Heap, p: Stores): (r: seq<PlainCell>)
    requires Formed(h, p)
    ensures |r| == STORES && forall i :: 0 <= i < STORES ==> r[i] == PlainOf(h.clips, h.cells[p[i]])
  {
    seq(STORES, i requires 0 <= i < STORES => PlainOf(h.clips, h.cells[p[i]]))
  }

  /** The sequence, with the clips its allocations hold. */
  ghost predicate IsPlain(s: V.Sequence, p: Plain) {
    && s == p.rest.(clips := s.clips) && |s.clips| == |p.clips|
    && forall j :: 0 <= j < |p.clips| ==> s.clips[j].value == p.clips[j]
  }

  /** What validation sees is what the stores say, each store in its place. */
  lemma {:induction false} ViewSays(h: Heap, p: Stores)
    requires Formed(h, p)
    ensures var view, says := View(h, p), Says(h, p);
            && view.root.value.data == says[0].data && |view.others| == 11
            && (forall i :: 0 <= i < 11 ==> view.others[i].value == says[i + 1].data)
            && |view.root.value.inline| == |says[0].sequences| && |view.sequences.value| == |says[12].sequences|
            && (forall k :: 0 <= k < |says[0].sequences| ==>
                  IsPlain(view.root.value.inline[k], says[0].sequences[k]))
            && forall k :: 0 <= k < |says[12].sequences| ==>
                 && view.sequences.value[k].key == says[12].sequences[k].key
                 && IsPlain(view.sequences.value[k].value, says[12].sequences[k])
  {
  }

  /** Two projects in one memory agree on every allocation they share. */
  lemma SharedIsCoherent(h: Heap, p: Stores, q: Stores)
    requires Formed(h, p) && Formed(h, q)
    ensures V.CoherentProjects(View(h, p), View(h, q))
  {
    forall s, t | s in V.Sequences(View(h, p)) && t in V.Sequences(View(h, q)) ensures V.Coherent(s.clips, t.clips) {
      ClipsInMemory(h, p, s);
      ClipsInMemory(h, q, t);
    }
  }

  lemma ClipsInMemory(h: Heap, p: Stores, s: V.Sequence)
    requires Formed(h, p) && s in V.Sequences(View(h, p))
    ensures forall i :: 0 <= i < |s.clips|
              ==> s.clips[i].address in h.clips
                  && h.clips[s.clips[i].address] == s.clips[i].value
  {
  }

  // ---------- What a change of memory keeps ----------

  /** Every allocation the project reaches is there and as it was. */
  ghost predicate Keeps(h: Heap, h': Heap, p: Stores) {
    && Formed(h, p) && |p| == STORES
    && forall i :: 0 <= i < STORES ==>
         p[i] in h'.cells && h'.cells[p[i]] == h.cells[p[i]]
         && forall a :: Mentions(h.cells[p[i]], a) ==> a in h'.clips && h'.clips[a] == h.clips[a]
  }

  lemma CellKept(clips: map<nat, V.Clip>, clips': map<nat, V.Clip>, cell: Cell)
    requires CellFormed(clips, cell) && forall a :: Mentions(cell, a)
                                          ==> a in clips' && a in clips
                                              && clips'[a] == clips[a]
    ensures CellFormed(clips', cell) && PlainOf(clips', cell) == PlainOf(clips, cell)
            && Resolve(clips', cell) == Resolve(clips, cell)
  {
    forall k, j | 0 <= k < |cell.sequences| && 0 <= j < |cell.sequences[k].clips|
      ensures cell.sequences[k].clips[j] in clips'
              && clips'[cell.sequences[k].clips[j]] == clips[cell.sequences[k].clips[j]]
    {
      assert Mentions(cell, cell.sequences[k].clips[j]);
    }
    forall k | 0 <= k < |cell.sequences|
      ensures Handles(clips', cell.sequences[k]) == Handles(clips, cell.sequences[k])
      ensures ClipsAt(clips', cell.sequences[k].clips) == ClipsAt(clips, cell.sequences[k].clips)
    {
    }
  }

  /** A project whose allocations are kept still says what it said. */
  lemma KeptView(h: Heap, h': Heap, p: Stores)
    requires Keeps(h, h', p)
    ensures Formed(h', p) && View(h', p) == View(h, p) && Says(h', p) == Says(h, p)
  {
    forall i | 0 <= i < STORES
      ensures CellFormed(h'.clips, h'.cells[p[i]])
              && PlainOf(h'.clips, h'.cells[p[i]]) == PlainOf(h.clips, h.cells[p[i]])
      ensures Resolve(h'.clips, h'.cells[p[i]]) == Resolve(h.clips, h.cells[p[i]])
    {
      forall a | Mentions(h.cells[p[i]], a) ensures a in h.clips {}
      CellKept(h.clips, h'.clips, h.cells[p[i]]);
    }
  }

  // ---------- Copy on write of stores ----------

  type Live = map<nat, Stores>

  ghost predicate AllKept(h: Heap, h': Heap, live: Live) {
    forall name :: name in live ==> Keeps(h, h', live[name])
  }

  /** Another project, or another store of this one, holds the store's allocation. */
  predicate StoreShared(live: Live, p: Stores, slot: nat)
    requires slot < |p|
  {
    || (exists name :: name in live && p[slot] in live[name])
    || exists i :: 0 <= i < |p| && i != slot && p[i] == p[slot]
  }

  /** No one else holds the store's allocation. */
  ghost predicate Alone(live: Live, p: Stores, slot: nat)
    requires slot < |p|
  {
    !StoreShared(live, p, slot)
  }

  ghost predicate AllFormed(h: Heap, live: Live) {
    h.Ordered() && forall name :: name in live ==> Formed(h, live[name])
  }

  /** Before a store is written it is copied, unless this project alone holds it; `held`
      says that something else besides the projects holds it. */
  function MakeStoreMut(h: Heap, live: Live, p: Stores, slot: nat, held: bool): (Heap, Stores)
    requires slot < |p| && p[slot] in h.cells
  {
    if held || StoreShared(live, p, slot)
        then (h.(cells := h.cells[h.next := h.cells[p[slot]]], next := h.next + 1), p[slot := h.next])
    else (h, p)
  }

  lemma StoreMut(h: Heap, live: Live, p: Stores, slot: nat, held: bool, h': Heap, p': Stores)
    requires AllFormed(h, live) && Formed(h, p) && slot < STORES && (h', p') == MakeStoreMut(h, live, p, slot, held)
    ensures AllFormed(h', live) && AllKept(h, h', live) && Formed(h', p')
    ensures Says(h', p') == Says(h, p) && Alone(live, p', slot)
    ensures forall i :: 0 <= i < STORES && i != slot ==> p'[i] == p[i]
  {
    forall i | 0 <= i < STORES ensures p'[i] in h'.cells && h'.cells[p'[i]] == h.cells[p[i]] {}
    forall name | name in live ensures Keeps(h, h', live[name]) && Formed(h', live[name]) {
      forall i, a | 0 <= i < STORES && Mentions(h.cells[live[name][i]], a) ensures a in h.clips {}
      KeptView(h, h', live[name]);
    }
  }

  // ---------- Writing a store this project alone holds ----------

  function WriteCell(h: Heap, p: Stores, slot: nat, cell: Cell): Heap
    requires slot < |p|
  {
    h.(cells := h.cells[p[slot] := cell])
  }

  lemma {:induction false} WroteCell(h: Heap, live: Live, p: Stores, slot: nat, cell: Cell)
    requires AllFormed(h, live) && Formed(h, p) && slot < STORES && Alone(live, p, slot) && CellFormed(h.clips, cell)
    ensures var h' := WriteCell(h, p, slot, cell);
            && AllFormed(h', live) && AllKept(h, h', live) && Formed(h', p)
            && Says(h', p) == Says(h, p)[slot := PlainOf(h.clips, cell)]
  {
    var h' := WriteCell(h, p, slot, cell);
    forall name | name in live ensures Keeps(h, h', live[name]) && Formed(h', live[name]) {
      forall i | 0 <= i < STORES ensures live[name][i] != p[slot] { assert live[name][i] in live[name]; }
      forall i, a | 0 <= i < STORES && Mentions(h.cells[live[name][i]], a) ensures a in h.clips {}
      KeptView(h, h', live[name]);
    }
  }

  // ---------- Clips ----------

  /** Another cell that is still held mentions the clip, or this one does so twice. */
  predicate ClipShared(h: Heap, live: Live, p: Stores, slot: nat, k: nat, j: nat)
    requires slot < |p| && p[slot] in h.cells && k < |h.cells[p[slot]].sequences|
             && j < |h.cells[p[slot]].sequences[k].clips|
  {
    var cell := h.cells[p[slot]];
    var a := cell.sequences[k].clips[j];
    || (exists name, i :: name in live && 0 <= i < |live[name]| && live[name][i] in h.cells
         && Mentions(h.cells[live[name][i]], a))
    || (exists i :: 0 <= i < |p| && i != slot && p[i] in h.cells && Mentions(h.cells[p[i]], a))
    || exists k', j' :: 0 <= k' < |cell.sequences| && 0 <= j' < |cell.sequences[k'].clips|
                        && (k' != k || j' != j) && cell.sequences[k'].clips[j'] == a
  }

  function WithClip(cell: Cell, k: nat, j: nat, a: nat): Cell
    requires k < |cell.sequences| && j < |cell.sequences[k].clips|
  {
    cell.(sequences := cell.sequences[k := cell.sequences[k].(clips := cell.sequences[k].clips[j := a])])
  }

  /** Write a clip of a store this project alone holds: in place when nothing else holds the
      clip, else in a fresh allocation. */
  function WriteClip(h: Heap, live: Live, p: Stores, slot: nat, k: nat, j: nat, clip: V.Clip, held: bool): Heap
    requires slot < |p| && p[slot] in h.cells && k < |h.cells[p[slot]].sequences|
             && j < |h.cells[p[slot]].sequences[k].clips|
  {
    var cell := h.cells[p[slot]];
    if held || ClipShared(h, live, p, slot, k, j) then
      Heap(h.cells[p[slot] := WithClip(cell, k, j, h.next)], h.clips[h.next := clip], h.next + 1)
    else h.(clips := h.clips[cell.sequences[k].clips[j] := clip])
  }

  /** The cell says `clip` at place `k`, `j`. */
  function PlainWithClip(cell: PlainCell, k: nat, j: nat, clip: V.Clip): PlainCell
    requires k < |cell.sequences| && j < |cell.sequences[k].clips|
  {
    cell.(sequences := cell.sequences[k := cell.sequences[k].(clips := cell.sequences[k].clips[j := clip])])
  }

  lemma {:induction false} ClipInPlace(clips: map<nat, V.Clip>, cell: Cell, k: nat, j: nat, clip: V.Clip)
    requires CellFormed(clips, cell) && k < |cell.sequences| && j < |cell.sequences[k].clips|
    requires forall k', j' ::
             0 <= k' < |cell.sequences| && 0 <= j' < |cell.sequences[k'].clips|
             && (k' != k || j' != j) ==>
               cell.sequences[k'].clips[j'] != cell.sequences[k].clips[j]
    ensures var clips' := clips[cell.sequences[k].clips[j] := clip];
            CellFormed(clips', cell) && PlainOf(clips', cell) == PlainWithClip(PlainOf(clips, cell), k, j, clip)
  {
    var clips' := clips[cell.sequences[k].clips[j] := clip];
    forall m | 0 <= m < |cell.sequences|
      ensures ClipsAt(clips', cell.sequences[m].clips)
           == if m == k then ClipsAt(clips, cell.sequences[k].clips)[j := clip]
               else ClipsAt(clips, cell.sequences[m].clips)
    {
    }
    assert PlainOf(clips', cell).sequences == PlainWithClip(PlainOf(clips, cell), k, j, clip).sequences;
  }

  lemma ClipFresh(clips: map<nat, V.Clip>, cell: Cell, k: nat, j: nat, clip: V.Clip, a: nat)
    requires CellFormed(clips, cell) && k < |cell.sequences| && j < |cell.sequences[k].clips| && a !in clips
    ensures CellFormed(clips[a := clip], WithClip(cell, k, j, a))
    ensures PlainOf(clips[a := clip], WithClip(cell, k, j, a)) == PlainWithClip(PlainOf(clips, cell), k, j, clip)
  {
    var clips', cell' := clips[a := clip], WithClip(cell, k, j, a);
    forall m | 0 <= m < |cell.sequences|
      ensures ClipsAt(clips', cell'.sequences[m].clips)
           == if m == k then ClipsAt(clips, cell.sequences[k].clips)[j := clip]
               else ClipsAt(clips, cell.sequences[m].clips)
    {
    }
    assert PlainOf(clips', cell').sequences == PlainWithClip(PlainOf(clips, cell), k, j, clip).sequences;
  }

  /** Writing a clip keeps what every live project reaches. */
  lemma WriteClipKeeps(h: Heap, live: Live, p: Stores, slot: nat, k: nat, j: nat, clip: V.Clip, held: bool)
    requires AllFormed(h, live) && Formed(h, p) && slot < STORES && Alone(live, p, slot)
    requires k < |h.cells[p[slot]].sequences| && j < |h.cells[p[slot]].sequences[k].clips|
    ensures AllFormed(WriteClip(h, live, p, slot, k, j, clip, held), live)
    ensures AllKept(h, WriteClip(h, live, p, slot, k, j, clip, held), live)
  {
    var h' := WriteClip(h, live, p, slot, k, j, clip, held);
    var a := h.cells[p[slot]].sequences[k].clips[j];
    forall name | name in live ensures Keeps(h, h', live[name]) && Formed(h', live[name]) {
      forall i | 0 <= i < STORES ensures live[name][i] != p[slot] { assert live[name][i] in live[name]; }
      forall i, b | 0 <= i < STORES && Mentions(h.cells[live[name][i]], b)
        ensures b in h'.clips && b in h.clips && h'.clips[b] == h.clips[b]
      {
      }
      KeptView(h, h', live[name]);
    }
  }

  /** And it changes what this project says only there. */
  lemma WriteClipSays(h: Heap, live: Live, p: Stores, slot: nat, k: nat, j: nat, clip: V.Clip, held: bool)
    requires AllFormed(h, live) && Formed(h, p) && slot < STORES && Alone(live, p, slot)
    requires k < |h.cells[p[slot]].sequences| && j < |h.cells[p[slot]].sequences[k].clips|
    ensures Formed(WriteClip(h, live, p, slot, k, j, clip, held), p)
    ensures Says(WriteClip(h, live, p, slot, k, j, clip, held), p)
            == Says(h, p)[slot := PlainWithClip(Says(h, p)[slot], k, j, clip)]
  {
    var h', cell := WriteClip(h, live, p, slot, k, j, clip, held), h.cells[p[slot]];
    var a := cell.sequences[k].clips[j];
    if held || ClipShared(h, live, p, slot, k, j) {
      ClipFresh(h.clips, cell, k, j, clip, h.next);
    } else {
      ClipInPlace(h.clips, cell, k, j, clip);
    }
    forall i | 0 <= i < STORES && i != slot
      ensures p[i] in h'.cells && CellFormed(h'.clips, h'.cells[p[i]])
              && PlainOf(h'.clips, h'.cells[p[i]]) == PlainOf(h.clips, h.cells[p[i]])
    {
      forall b | Mentions(h.cells[p[i]], b) ensures b in h'.clips && b in h.clips && h'.clips[b] == h.clips[b] {}
      CellKept(h.clips, h'.clips, h.cells[p[i]]);
    }
  }

  // ---------- Replacing the sequences of a store ----------

  /** Where a clip of a new list comes from: one the project has, shared, or a new one. */
  datatype ClipSource = Kept(slot: nat, k: nat, j: nat) | Made(clip: V.Clip)

  datatype NewSequence = NewSequence(key: nat, rest: V.Sequence, clips: seq<ClipSource>)

  predicate HasClip(h: Heap, p: Stores, source: ClipSource)
    requires source.Kept?
  {
    && source.slot < |p| && p[source.slot] in h.cells && source.k < |h.cells[p[source.slot]].sequences|
    && source.j < |h.cells[p[source.slot]].sequences[source.k].clips|
  }

  /** The allocations of the clips, those made new among them; a place that does not exist
      gives no clip. */
  function Allocate(h: Heap, p: Stores, sources: seq<ClipSource>): (r: (Heap, seq<nat>))
    ensures r.0.cells == h.cells
  {
    if sources == [] then (h, [])
    else
      var (h', rest) := Allocate(h, p, sources[..|sources| - 1]);
      var last := sources[|sources| - 1];
      match last
      case Made(clip) => (h'.(clips := h'.clips[h'.next := clip], next := h'.next + 1), rest + [h'.next])
      case Kept(slot, k, j) =>
        if HasClip(h, p, last) then (h', rest + [h.cells[p[slot]].sequences[k].clips[j]]) else (h', rest)
  }

  /** The clips the sources stand for in what the project says. */
  function Chosen(says: seq<PlainCell>, sources: seq<ClipSource>): seq<V.Clip> {
    if sources == [] then []
    else
      var rest, last := Chosen(says, sources[..|sources| - 1]), sources[|sources| - 1];
      match last
      case Made(clip) => rest + [clip]
      case Kept(slot, k, j) =>
        if slot < |says| && k < |says[slot].sequences| && j < |says[slot].sequences[k].clips|
        then rest + [says[slot].sequences[k].clips[j]] else rest
  }

  /** Memory only grew. */
  ghost predicate Grew(h: Heap, h': Heap) {
    && h.cells == h'.cells && h.next <= h'.next && h'.Ordered()
    && forall a :: a in h.clips ==> a in h'.clips && h'.clips[a] == h.clips[a]
  }

  lemma GrewKeeps(h: Heap, h': Heap, p: Stores)
    requires Formed(h, p) && Grew(h, h')
    ensures Keeps(h, h', p) && Formed(h', p) && View(h', p) == View(h, p) && Says(h', p) == Says(h, p)
  {
    forall i, a | 0 <= i < STORES && Mentions(h.cells[p[i]], a) ensures a in h.clips {}
    KeptView(h, h', p);
  }

  lemma {:induction false} Allocated(h: Heap, p: Stores, sources: seq<ClipSource>)
    requires h.Ordered() && Formed(h, p)
    ensures Grew(h, Allocate(h, p, sources).0)
    ensures forall j :: 0 <= j < |Allocate(h, p, sources).1|
              ==> Allocate(h, p, sources).1[j] in Allocate(h, p, sources).0.clips
    ensures ClipsAt(Allocate(h, p, sources).0.clips, Allocate(h, p, sources).1) == Chosen(Says(h, p), sources)
  {
    if sources != [] {
      var init, last := sources[..|sources| - 1], sources[|sources| - 1];
      Allocated(h, p, init);
      var (h', rest) := Allocate(h, p, init);
      var (h'', addresses) := Allocate(h, p, sources);
      if last.Kept? && HasClip(h, p, last) {
        assert Says(h, p)[last.slot].sequences[last.k].clips[last.j]
               == h.clips[h.cells[p[last.slot]].sequences[last.k].clips[last.j]];
      }
      assert ClipsAt(h''.clips, addresses) == Chosen(Says(h, p), sources) by {
        assert forall j :: 0 <= j < |rest| ==> h''.clips[rest[j]] == h'.clips[rest[j]];
      }
    }
  }

  /** The new sequences of a store, their clips allocated. */
  function AllocateAll(h: Heap, p: Stores, news: seq<NewSequence>): (r: (Heap, seq<Stored>))
    ensures r.0.cells == h.cells
  {
    if news == [] then (h, [])
    else
      var (h', rest) := AllocateAll(h, p, news[..|news| - 1]);
      var last := news[|news| - 1];
      var (h'', addresses) := Allocate(h', p, last.clips);
      (h'', rest + [Stored(last.key, last.rest, addresses)])
  }

  function ChosenAll(says: seq<PlainCell>, news: seq<NewSequence>): seq<Plain> {
    if news == [] then []
    else
      var last := news[|news| - 1];
      ChosenAll(says, news[..|news| - 1]) + [Plain(last.key, last.rest, Chosen(says, last.clips))]
  }

  lemma PlainGrew(clips: map<nat, V.Clip>, clips': map<nat, V.Clip>, cell: Cell)
    requires CellFormed(clips, cell) && forall a :: a in clips ==> a in clips' && clips'[a] == clips[a]
    ensures CellFormed(clips', cell) && PlainOf(clips', cell) == PlainOf(clips, cell)
  {
    forall a | Mentions(cell, a) ensures a in clips {}
    CellKept(clips, clips', cell);
  }

  lemma {:induction false} AllocatedAll(h: Heap, p: Stores, news: seq<NewSequence>, data: V.Data)
    requires h.Ordered() && Formed(h, p)
    ensures Grew(h, AllocateAll(h, p, news).0)
    ensures CellFormed(AllocateAll(h, p, news).0.clips, Cell(data, AllocateAll(h, p, news).1))
    ensures PlainOf(AllocateAll(h, p, news).0.clips, Cell(data, AllocateAll(h, p, news).1))
         == PlainCell(data, ChosenAll(Says(h, p), news))
  {
    if news == [] {
      assert PlainOf(h.clips, Cell(data, [])).sequences == [];
    } else {
      var init, last := news[..|news| - 1], news[|news| - 1];
      AllocatedAll(h, p, init, data);
      var (h', rest) := AllocateAll(h, p, init);
      var (h'', addresses) := Allocate(h', p, last.clips);
      GrewKeeps(h, h', p);
      Allocated(h', p, last.clips);
      PlainGrew(h'.clips, h''.clips, Cell(data, rest));
      AppendStored(h''.clips, data, rest, Stored(last.key, last.rest, addresses));
    }
  }

  lemma AppendStored(clips: map<nat, V.Clip>, data: V.Data, rest: seq<Stored>, s: Stored)
    requires CellFormed(clips, Cell(data, rest)) && forall j :: 0 <= j < |s.clips| ==> s.clips[j] in clips
    ensures CellFormed(clips, Cell(data, rest + [s]))
    ensures PlainOf(clips, Cell(data, rest + [s]))
         == PlainCell(data, PlainOf(clips, Cell(data, rest)).sequences
                      + [Plain(s.key, s.rest, ClipsAt(clips, s.clips))])
  {
    var cell := Cell(data, rest + [s]);
    forall k, j | 0 <= k < |cell.sequences| && 0 <= j < |cell.sequences[k].clips|
      ensures cell.sequences[k].clips[j] in clips {
      if k < |rest| { assert Cell(data, rest).sequences[k].clips[j] in clips; }
    }
    assert PlainOf(clips, cell).sequences
        == PlainOf(clips, Cell(data, rest)).sequences + [Plain(s.key, s.rest, ClipsAt(clips, s.clips))];
  }

  // ---------- Steps of an edit ----------

  /** What an edit does to its candidate. `held` says that something besides the projects
      holds the allocation, which makes copy on write copy. */
  datatype Step =
    | WriteData(slot: nat, data: V.Data, held: bool)
    | WriteClipAt(slot: nat, k: nat, j: nat, clip: V.Clip, held: bool, clipHeld: bool)
    | PutSequences(slot: nat, news: seq<NewSequence>, held: bool)

  predicate StepFits(step: Step) { step.slot < STORES }

  /** What the step does to what the project says; a place that does not exist changes
      nothing. */
  function Said(says: seq<PlainCell>, step: Step): (r: seq<PlainCell>)
    requires |says| == STORES && StepFits(step)
    ensures |r| == STORES
  {
    var cell := says[step.slot];
    match step
    case WriteData(slot, data, _) => says[slot := cell.(data := data)]
    case WriteClipAt(slot, k, j, clip, _, _) =>
      if k < |cell.sequences| && j < |cell.sequences[k].clips| then says[slot := PlainWithClip(cell, k, j, clip)]
          else says
    case PutSequences(slot, news, _) => says[slot := PlainCell(cell.data, ChosenAll(says, news))]
  }

  /** What the step does to memory and to the candidate. */
  function TakeStep(h: Heap, live: Live, p: Stores, step: Step): (Heap, Stores)
    requires Formed(h, p) && StepFits(step)
  {
    var (h', p') := MakeStoreMut(h, live, p, step.slot, step.held);
    var cell := h'.cells[p'[step.slot]];
    match step
    case WriteData(slot, data, _) => (WriteCell(h', p', slot, cell.(data := data)), p')
    case WriteClipAt(slot, k, j, clip, _, clipHeld) =>
      if k < |cell.sequences| && j < |cell.sequences[k].clips|
          then (WriteClip(h', live, p', slot, k, j, clip, clipHeld), p')
      else (h', p')
    case PutSequences(slot, news, _) =>
      var (h'', stored) := AllocateAll(h', p', news);
      (WriteCell(h'', p', slot, Cell(cell.data, stored)), p')
  }

  lemma KeptOn(h: Heap, h': Heap, h'': Heap, live: Live)
    requires AllKept(h, h', live) && AllKept(h', h'', live)
    ensures AllKept(h, h'', live)
  {
    forall name | name in live ensures Keeps(h, h'', live[name]) {
      assert Keeps(h, h', live[name]) && Keeps(h', h'', live[name]);
    }
  }

  lemma AllGrew(h: Heap, h': Heap, live: Live)
    requires AllFormed(h, live) && Grew(h, h')
    ensures AllFormed(h', live) && AllKept(h, h', live)
  {
    forall name | name in live ensures Keeps(h, h', live[name]) && Formed(h', live[name]) {
      GrewKeeps(h, h', live[name]);
    }
  }

  lemma {:induction false} WriteDataTaken(h: Heap, live: Live, p: Stores, slot: nat, data: V.Data)
    requires AllFormed(h, live) && Formed(h, p) && slot < STORES && Alone(live, p, slot)
    ensures var h' := WriteCell(h, p, slot, h.cells[p[slot]].(data := data));
            && AllFormed(h', live) && AllKept(h, h', live) && Formed(h', p)
            && Says(h', p) == Says(h, p)[slot := Says(h, p)[slot].(data := data)]
  {
    var cell := h.cells[p[slot]];
    var cell' := cell.(data := data);
    assert CellFormed(h.clips, cell') by { assert cell'.sequences == cell.sequences && CellFormed(h.clips, cell); }
    assert PlainOf(h.clips, cell').sequences == PlainOf(h.clips, cell).sequences;
    WroteCell(h, live, p, slot, cell');
  }

  lemma {:induction false} PutTaken(h: Heap, live: Live, p: Stores, slot: nat, news: seq<NewSequence>)
    requires AllFormed(h, live) && Formed(h, p) && slot < STORES && Alone(live, p, slot)
    ensures var (h', stored) := AllocateAll(h, p, news);
            var h'' := WriteCell(h', p, slot, Cell(h.cells[p[slot]].data, stored));
            && AllFormed(h'', live) && AllKept(h, h'', live) && Formed(h'', p)
            && Says(h'', p) == Says(h, p)[slot := PlainCell(Says(h, p)[slot].data, ChosenAll(Says(h, p), news))]
  {
    var (h', stored) := AllocateAll(h, p, news);
    var cell := Cell(h.cells[p[slot]].data, stored);
    AllocatedAll(h, p, news, cell.data);
    GrewKeeps(h, h', p);
    AllGrew(h, h', live);
    WroteCell(h', live, p, slot, cell);
    KeptOn(h, h', WriteCell(h', p, slot, cell), live);
  }

  /** A step does to the candidate what it says, and nothing to any live project. */
  lemma {:induction false} StepTaken(h: Heap, live: Live, p: Stores, step: Step)
    requires AllFormed(h, live) && Formed(h, p) && StepFits(step)
    ensures var (h', p') := TakeStep(h, live, p, step);
            && AllFormed(h', live) && AllKept(h, h', live) && Formed(h', p')
            && Says(h', p') == Said(Says(h, p), step)
  {
    var (h', p') := MakeStoreMut(h, live, p, step.slot, step.held);
    StoreMut(h, live, p, step.slot, step.held, h', p');
    var h'' := TakeStep(h, live, p, step).0;
    match step {
      case WriteData(slot, data, _) =>
        WriteDataTaken(h', live, p', slot, data);
      case WriteClipAt(slot, k, j, clip, _, clipHeld) =>
        var cell := h'.cells[p'[slot]];
        if k < |cell.sequences| && j < |cell.sequences[k].clips| {
          WriteClipKeeps(h', live, p', slot, k, j, clip, clipHeld);
          WriteClipSays(h', live, p', slot, k, j, clip, clipHeld);
        } else {
          AllGrew(h', h', live);
        }
      case PutSequences(slot, news, _) =>
        PutTaken(h', live, p', slot, news);
    }
    KeptOn(h, h', h'', live);
  }

  /** What a whole script makes of what a project says. */
  function SaidAll(says: seq<PlainCell>, script: seq<Step>): (r: seq<PlainCell>)
    requires |says| == STORES && forall i :: 0 <= i < |script| ==> StepFits(script[i])
    ensures |r| == STORES
  {
    if script == [] then says else Said(SaidAll(says, script[..|script| - 1]), script[|script| - 1])
  }

  // ---------- New projects ----------

  /** A store of its own for each of the data given, without sequences. */
  function FreshStores(h: Heap, data: seq<V.Data>): (Heap, Stores) {
    if data == [] then (h, [])
    else
      var (h', p) := FreshStores(h, data[..|data| - 1]);
      (h'.(cells := h'.cells[h'.next := Cell(data[|data| - 1], [])], next := h'.next + 1), p + [h'.next])
  }

  /** Memory grew by cells alone. */
  ghost predicate GrewCells(h: Heap, h': Heap) {
    && h.clips == h'.clips && h.next <= h'.next && h'.Ordered()
    && forall a :: a in h.cells ==> a in h'.cells && h'.cells[a] == h.cells[a]
  }

  lemma {:induction false} StoresAreFresh(h: Heap, data: seq<V.Data>)
    requires h.Ordered()
    ensures var (h', p) := FreshStores(h, data);
            && GrewCells(h, h') && |p| == |data|
            && forall i :: 0 <= i < |p| ==> p[i] in h'.cells && h'.cells[p[i]] == Cell(data[i], [])
  {
    if data != [] { StoresAreFresh(h, data[..|data| - 1]); }
  }

  lemma GrewCellsKeeps(h: Heap, h': Heap, live: Live)
    requires AllFormed(h, live) && GrewCells(h, h')
    ensures AllFormed(h', live) && AllKept(h, h', live)
  {
    forall name | name in live ensures Keeps(h, h', live[name]) && Formed(h', live[name]) {
      forall i, a | 0 <= i < STORES && Mentions(h.cells[live[name][i]], a) ensures a in h.clips {}
      KeptView(h, h', live[name]);
    }
  }

  /** What stores of the data alone say. */
  function SaysData(data: seq<V.Data>): (r: seq<PlainCell>)
    ensures |r| == |data|
  {
    seq(|data|, i requires 0 <= i < |data| => PlainCell(data[i], []))
  }

  lemma {:induction false} FreshSays(h: Heap, data: seq<V.Data>)
    requires h.Ordered() && |data| == STORES
    ensures Formed(FreshStores(h, data).0, FreshStores(h, data).1)
    ensures Says(FreshStores(h, data).0, FreshStores(h, data).1) == SaysData(data)
  {
    StoresAreFresh(h, data);
    var (h', p) := FreshStores(h, data);
    forall i | 0 <= i < STORES ensures PlainOf(h'.clips, h'.cells[p[i]]) == PlainCell(data[i], []) {
      assert PlainOf(h'.clips, Cell(data[i], [])).sequences == [];
    }
  }

  /** A new project is its stores' data, then its sequences put in. */
  function NewScript(inline: seq<NewSequence>, sequences: seq<NewSequence>): (r: seq<Step>)
    ensures forall i :: 0 <= i < |r| ==> StepFits(r[i])
  {
    [PutSequences(ROOT, inline, false), PutSequences(SEQUENCES, sequences, false)]
  }

  function NewSays(data: seq<V.Data>, inline: seq<NewSequence>, sequences: seq<NewSequence>): seq<PlainCell>
    requires |data| == STORES
  {
    SaidAll(SaysData(data), NewScript(inline, sequences))
  }

  // ---------- The live projects ----------

  datatype EditResult = Done | Rejected | Invalid(error: V.Error) | NotAdmitted

  /** Whether a candidate's inputs are accepted, given the project it was edited from if any. */
  type Admission = (V.Project, Option<V.Project>) -> bool

  /** Whether a candidate becomes a live project: it must pass every check, then be admitted. */
  function Verdict(rules: V.Rules, admits: Admission, candidate: V.Project, previous: Option<V.Project>): EditResult {
    var error := V.ProjectOf(rules, candidate);
    if error.Some? then Invalid(error.value) else if admits(candidate, previous) then Done else NotAdmitted
  }

  /** A candidate becomes live exactly when it fits and is admitted; otherwise the verdict says
      what is so of it. */
  lemma {:induction false} VerdictIs(rules: V.Rules, admits: Admission, candidate: V.Project,
                                     previous: Option<V.Project>)
    ensures var r := Verdict(rules, admits, candidate, previous);
            && (r == Done <==> V.ProjectFits(rules, candidate) && admits(candidate, previous))
            && (r == NotAdmitted <==> V.ProjectFits(rules, candidate) && !admits(candidate, previous))
            && (r.Invalid? ==> V.ErrorIsSo(rules, candidate, r.error))
            && r != Rejected
  {
    V.ProjectFitsIff(rules, candidate);
  }

  /** Every live project lies in memory and fits. */
  ghost predicate AllPass(rules: V.Rules, h: Heap, live: Live) {
    AllFormed(h, live) && forall name :: name in live ==> V.ProjectFits(rules, View(h, live[name]))
  }

  /** What validation sees of every live project. */
  ghost function ViewsOf(h: Heap, live: Live): map<nat, V.Project>
    requires AllFormed(h, live)
  {
    map name | name in live :: View(h, live[name])
  }

  lemma PutPasses(rules: V.Rules, h: Heap, live: Live, name: nat, p: Stores)
    requires AllPass(rules, h, live) && Formed(h, p) && V.ProjectFits(rules, View(h, p))
    ensures AllPass(rules, h, live[name := p])
    ensures ViewsOf(h, live[name := p]) == ViewsOf(h, live)[name := View(h, p)]
  {
    PutForms(h, live, name, p);
  }

  lemma PutForms(h: Heap, live: Live, name: nat, p: Stores)
    requires AllFormed(h, live) && Formed(h, p)
    ensures AllFormed(h, live[name := p])
    ensures ViewsOf(h, live[name := p]) == ViewsOf(h, live)[name := View(h, p)]
  {
  }

  lemma DropPasses(rules: V.Rules, h: Heap, live: Live, name: nat)
    requires AllPass(rules, h, live)
    ensures AllPass(rules, h, live - {name}) && ViewsOf(h, live - {name}) == ViewsOf(h, live) - {name}
  {
    forall n | n in live - {name} ensures Formed(h, (live - {name})[n]) { assert n in live; }
  }

  lemma KeptPass(rules: V.Rules, h: Heap, h': Heap, live: Live)
    requires AllPass(rules, h, live) && AllKept(h, h', live) && AllFormed(h', live)
    ensures AllPass(rules, h', live) && ViewsOf(h', live) == ViewsOf(h, live)
  {
    forall name | name in live ensures View(h', live[name]) == View(h, live[name]) { KeptView(h, h', live[name]); }
  }

  datatype Command =
    | NewProject(name: nat, data: seq<V.Data>, inline: seq<NewSequence>, sequences: seq<NewSequence>)
    | EditProject(name: nat, script: seq<Step>, refused: bool)
    | CloneProject(name: nat, copy: nat)
    | DropProject(name: nat)

  predicate AllFit(script: seq<Step>) {
    forall k :: 0 <= k < |script| ==> StepFits(script[k])
  }

  /** The candidate says what it should. */
  ghost predicate Tried(h: Heap, tried: Stores, says: seq<PlainCell>) {
    Formed(h, tried) && Says(h, tried) == says
  }

  /** What is live once a candidate was tried under a name: it, where it fits and is admitted,
      and every other project as it was. */
  ghost function Outcome(rules: V.Rules, admits: Admission, views: map<nat, V.Project>, name: nat,
                         candidate: V.Project, previous: Option<V.Project>, refused: bool): map<nat, V.Project> {
    if !refused && V.ProjectFits(rules, candidate) && admits(candidate, previous) then views[name := candidate]
    else views
  }

  /** Memory, and the projects live in it. */
  datatype State = State(heap: Heap, live: Live)

  /** Between two states that pass: what one command makes of the live projects. */
  ghost predicate Took(rules: V.Rules, admits: Admission, s: State, c: Command, t: State) {
    && AllPass(rules, s.heap, s.live) && AllPass(rules, t.heap, t.live)
    && var views, views' := ViewsOf(s.heap, s.live), ViewsOf(t.heap, t.live);
       match c
       case NewProject(name, data, inline, sequences) =>
         if name in s.live || |data| != STORES then views' == views
         else exists tried :: Tried(t.heap, tried, NewSays(data, inline, sequences))
                              && views' == Outcome(rules, admits, views, name, View(t.heap, tried), None, false)
       case EditProject(name, script, refused) =>
         if name !in s.live || exists k :: 0 <= k < |script| && script[k].slot >= 13 then views' == views
         else exists tried :: Tried(t.heap, tried, SaidAll(Says(s.heap, s.live[name]), script))
                              && views' == Outcome(rules, admits, views, name, View(t.heap, tried), Some(views[name]),
                                                   refused)
       case CloneProject(name, copy) =>
         views' == if name in s.live && copy !in s.live then views[copy := views[name]] else views
       case DropProject(name) => views' == if name in s.live then views - {name} else views
  }

  /** A run of commands leads from `s` to `t`, one after the other, every state between them
      passing. */
  ghost predicate Runs(rules: V.Rules, admits: Admission, s: State, commands: seq<Command>, t: State)
    decreases |commands|, 1
  {
    if commands == [] then t == s && AllPass(rules, s.heap, s.live)
    else exists m :: RunsThrough(rules, admits, s, commands, m, t)
  }

  /** All commands but the last lead from `s` to `m`, the last one from there to `t`. */
  ghost predicate RunsThrough(rules: V.Rules, admits: Admission, s: State, commands: seq<Command>, m: State,
                              t: State)
    requires commands != []
    decreases |commands|, 0
  {
    && Runs(rules, admits, s, commands[..|commands| - 1], m)
    && Took(rules, admits, m, commands[|commands| - 1], t)
  }

  lemma {:induction false} RunsOn(rules: V.Rules, admits: Admission, s: State, commands: seq<Command>, m: State,
                                  c: Command, t: State)
    requires Runs(rules, admits, s, commands, m) && Took(rules, admits, m, c, t)
    ensures Runs(rules, admits, s, commands + [c], t)
  {
    var more := commands + [c];
    assert more[..|more| - 1] == commands && more[|more| - 1] == c;
    assert RunsThrough(rules, admits, s, more, m, t);
  }

  /** Every project a caller can hold, and the memory they lie in. */
  class Workspace {
    var heap: Heap
    var live: Live
    const rules: V.Rules
    const admits: Admission

    ghost predicate Valid()
      reads this
    {
      AllPass(rules, heap, live)
    }

    ghost function Views(): map<nat, V.Project>
      requires Valid()
      reads this
    {
      ViewsOf(heap, live)
    }

    constructor (rules: V.Rules, admits: Admission)
      ensures Valid() && live == map[] && this.rules == rules && this.admits == admits
    {
      this.rules, this.admits := rules, admits;
      heap, live := Heap(map[], map[], 0), map[];
    }

    /** Run the steps of an edit on a candidate, one after the other. */
    method RunScript(candidate0: Stores, script: seq<Step>) returns (candidate: Stores)
      requires AllFormed(heap, live) && Formed(heap, candidate0)
      requires forall i :: 0 <= i < |script| ==> StepFits(script[i])
      modifies this`heap
      ensures AllFormed(heap, live) && AllKept(old(heap), heap, live) && Formed(heap, candidate)
      ensures Says(heap, candidate) == SaidAll(old(Says(heap, candidate0)), script)
    {
      candidate := candidate0;
      var i := 0;
      AllGrew(heap, heap, live);
      while i < |script|
        invariant 0 <= i <= |script|
        invariant AllFormed(heap, live) && AllKept(old(heap), heap, live) && Formed(heap, candidate)
        invariant Says(heap, candidate) == SaidAll(old(Says(heap, candidate0)), script[..i])
      {
        assert script[..i + 1][..i] == script[..i] && script[..i + 1][i] == script[i];
        StepTaken(heap, live, candidate, script[i]);
        ghost var before := heap;
        var (next, p) := TakeStep(heap, live, candidate, script[i]);
        heap, candidate := next, p;
        KeptOn(old(heap), before, heap, live);
        i := i + 1;
      }
      assert script[..i] == script;
    }

    /** Lay out a project of the data given, with sequences in place and in their store. */
    method LayOut(data: seq<V.Data>, inline: seq<NewSequence>, sequences: seq<NewSequence>) returns (candidate: Stores)
      requires AllFormed(heap, live) && |data| == STORES
      modifies this`heap
      ensures AllFormed(heap, live) && AllKept(old(heap), heap, live) && Formed(heap, candidate)
      ensures Says(heap, candidate) == NewSays(data, inline, sequences)
    {
      ghost var before := heap;
      var (grown, stores) := FreshStores(heap, data);
      StoresAreFresh(heap, data);
      FreshSays(heap, data);
      GrewCellsKeeps(heap, grown, live);
      heap := grown;
      candidate := RunScript(stores, NewScript(inline, sequences));
      KeptOn(before, grown, heap, live);
    }

    /** Make a candidate that passes a live project. */
    method Put(name: nat, candidate: Stores)
      requires Valid() && Formed(heap, candidate) && V.ProjectFits(rules, View(heap, candidate))
      modifies this`live
      ensures Valid() && live == old(live)[name := candidate]
      ensures Views() == old(Views())[name := View(heap, candidate)]
    {
      PutPasses(rules, heap, live, name, candidate);
      live := live[name := candidate];
    }

    /** A new project of the data given, if it passes every check; nothing else changes. */
    method TryNew(name: nat, data: seq<V.Data>, inline: seq<NewSequence>, sequences: seq<NewSequence>)
      returns (r: EditResult, ghost tried: Stores)
      requires Valid() && name !in live && |data| == STORES
      modifies this`heap, this`live
      ensures Valid()
      ensures Tried(heap, tried, NewSays(data, inline, sequences))
      ensures r == Verdict(rules, admits, View(heap, tried), None)
      ensures r == Done <==> V.ProjectFits(rules, View(heap, tried)) && admits(View(heap, tried), None)
      ensures live == if r == Done then old(live)[name := tried] else old(live)
      ensures Views() == Outcome(rules, admits, old(Views()), name, View(heap, tried), None, false)
    {
      ghost var before := heap;
      var candidate := LayOut(data, inline, sequences);
      tried := candidate;
      KeptPass(rules, before, heap, live);
      VerdictIs(rules, admits, View(heap, candidate), None);
      var error := V.ValidateProject(rules, View(heap, candidate));
      if error.Some? {
        return Invalid(error.value), candidate;
      }
      if !admits(View(heap, candidate), None) {
        return NotAdmitted, candidate;
      }
      Put(name, candidate);
      r := Done;
    }

    /** A candidate that shares every store with the project, edited. */
    method EditCopy(name: nat, script: seq<Step>) returns (candidate: Stores)
      requires Valid() && name in live && forall i :: 0 <= i < |script| ==> StepFits(script[i])
      modifies this`heap
      ensures Valid() && Tried(heap, candidate, SaidAll(old(Says(heap, live[name])), script))
      ensures Views() == old(Views())
    {
      ghost var before := heap;
      candidate := RunScript(live[name], script);
      KeptPass(rules, before, heap, live);
    }

    /** The candidate's check as an edit finds what its whole check finds. */
    method CheckEdit(name: nat, candidate: Stores) returns (r: EditResult)
      requires Valid() && name in live && Formed(heap, candidate)
      ensures r == Verdict(rules, admits, View(heap, candidate), Some(Views()[name]))
    {
      SharedIsCoherent(heap, candidate, live[name]);
      V.ProjectFitsIff(rules, View(heap, live[name]));
      var error := V.ValidateProjectEdit(rules, View(heap, candidate), View(heap, live[name]));
      r := if error.Some? then Invalid(error.value)
           else if admits(View(heap, candidate), Some(View(heap, live[name]))) then Done else NotAdmitted;
    }

    /** Put an edited candidate in the project's place if it passes. */
    method Settle(name: nat, candidate: Stores) returns (r: EditResult)
      requires Valid() && name in live && Formed(heap, candidate)
      modifies this`live
      ensures Valid() && r == Verdict(rules, admits, View(heap, candidate), Some(old(Views())[name]))
      ensures live == if r == Done then old(live)[name := candidate] else old(live)
      ensures Views() == Outcome(rules, admits, old(Views()), name, View(heap, candidate), Some(old(Views())[name]),
                                 false)
    {
      r := CheckEdit(name, candidate);
      VerdictIs(rules, admits, View(heap, candidate), Some(View(heap, live[name])));
      if r == Done {
        Put(name, candidate);
      }
    }

    /** Edit a candidate that shares every store with the project, and put it in the
        project's place if it passes. A refused or invalid edit leaves the project as it
        was; no edit changes another project. */
    method CheckedEdit(name: nat, script: seq<Step>, refused: bool) returns (r: EditResult, ghost tried: Stores)
      requires Valid() && name in live && forall i :: 0 <= i < |script| ==> StepFits(script[i])
      modifies this`heap, this`live
      ensures Valid()
      ensures Tried(heap, tried, SaidAll(old(Says(heap, live[name])), script))
      ensures r == if refused then Rejected else Verdict(rules, admits, View(heap, tried), Some(old(Views())[name]))
      ensures r == Done <==>
              !refused && V.ProjectFits(rules, View(heap, tried)) && admits(View(heap, tried), Some(old(Views())[name]))
      ensures Views() == Outcome(rules, admits, old(Views()), name, View(heap, tried), Some(old(Views())[name]),
                                 refused)
    {
      var candidate := EditCopy(name, script);
      tried := candidate;
      if refused {
        return Rejected, candidate;
      }
      r := Settle(name, candidate);
      VerdictIs(rules, admits, View(heap, tried), Some(old(Views())[name]));
    }

    /** A copy shares every store. */
    method Clone(name: nat, copy: nat)
      requires Valid() && name in live && copy !in live
      modifies this`live
      ensures Valid() && live == old(live)[copy := old(live[name])]
      ensures Views() == old(Views())[copy := old(Views())[name]]
    {
      PutPasses(rules, heap, live, copy, live[name]);
      live := live[copy := live[name]];
    }

    method Drop(name: nat)
      requires Valid() && name in live
      modifies this`live
      ensures Valid() && live == old(live) - {name} && Views() == old(Views()) - {name}
    {
      DropPasses(rules, heap, live, name);
      live := live - {name};
    }

    /** Carry out one command; one that names no project, or a taken name, does nothing. */
    method Do(c: Command)
      requires Valid()
      modifies this`heap, this`live
      ensures Valid() && Took(rules, admits, State(old(heap), old(live)), c, State(heap, live))
    {
      match c {
        case NewProject(name, data, inline, sequences) =>
          if name !in live && |data| == STORES {
            var _, _ := TryNew(name, data, inline, sequences);
          }
        case EditProject(name, script, refused) =>
          if name in live && AllFit(script) {
            var _, _ := CheckedEdit(name, script, refused);
          }
        case CloneProject(name, copy) =>
          if name in live && copy !in live {
            Clone(name, copy);
          }
        case DropProject(name) =>
          if name in live {
            Drop(name);
          }
      }
    }

    /** One more command after those that led here. */
    method DoNext(ghost start: State, ghost commands: seq<Command>, c: Command)
      requires Valid() && Runs(rules, admits, start, commands, State(heap, live))
      modifies this`heap, this`live
      ensures Valid() && Runs(rules, admits, start, commands + [c], State(heap, live))
    {
      Do(c);
      RunsOn(rules, admits, start, commands, State(old(heap), old(live)), c, State(heap, live));
    }

    /** Any run of commands: every live project passes every check all along. */
    method Run(commands: seq<Command>)
      requires Valid()
      modifies this`heap, this`live
      ensures Valid() && Runs(rules, admits, State(old(heap), old(live)), commands, State(heap, live))
    {
      ghost var start := State(heap, live);
      var i := 0;
      while i < |commands|
        invariant 0 <= i <= |commands| && Valid() && Runs(rules, admits, start, commands[..i], State(heap, live))
      {
        assert commands[..i + 1] == commands[..i] + [commands[i]];
        DoNext(start, commands[..i], commands[i]);
        i := i + 1;
      }
      assert commands[..i] == commands;
    }
  }
}
