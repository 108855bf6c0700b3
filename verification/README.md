# Donder: verified models

Donder sequences light shows. This Dafny project models the parts of it where a fast or
transformed form must agree with something simple, and proves that it does.

- **Projects** (`validation.dfy`, `project.dfy`). An edit is checked by a validator that skips
  what is still shared with the project before it. It returns exactly what the whole check
  returns, and copy on write makes that sound over every run of edits: stores and clips are
  allocations in an explicit memory, and a write never reaches another live project.
- **Automation** (`curves.dfy`, `edges.dfy`, `crop.dfy`, `envelope.dfy`, `automation.dfy`,
  `ranges.dfy`). Clips are cropped, split, seen through windows, merged into one envelope and
  read over a range. Each rewrite keeps the sampled value at every time, steps and held ends
  included, and where it does not the exact condition is proved. `fractions.dfy` holds the facts
  about products and quotients these proofs use, `options.dfy` the optional value all modules
  share.
- **Curve queries and colors** (`areas.dfy`, `crossings.dfy`, `colors.dfy`, `gradients.dfy`).
  The area table agrees with the walk bit for bit, since its arithmetic is left uninterpreted;
  crossings are the least and the latest; gradients are curves through their stops'
  coordinates and keep every stop's color.
- **Graphs** (`paths.dfy`, `composition.dfy`, `layout.dfy`, `groups.dfy`). Kahn's algorithm,
  depth-first coloring, cycle breaking and an emptiness fixpoint against definitions by paths.
- **Routing** (`routing.dfy`). Run-length encoded pixel slots, claims, and the check of a patch.
- **Beat detection** (`chunks.dfy`, `peaks.dfy`). Chunked inference stitched into one logit for
  each frame, and peaks picked from the logits.
- **Small protocols and codecs** (`polls.dfy`, `unicode.dfy`, `text.dfy`, `edits.dfy`,
  `tokens.dfy`). The poll claim under any interleaving; positions, edits and tokens of the
  language server.

Values and times are reals where rounding is not the point. Byte, slot, tick and frame counts
are integers, with the widths of the program where they matter: 16-bit start slots, 32-bit
ticks, spans and channel counts, 64-bit seconds.

Where code and comments disagree, the model follows the code:

- `peaks.rs` says runs of adjacent peak frames are merged into their mean. The code compares a
  frame with the mean so far, so at most two merge. `Peaks.RunsBecomeMeansIff` says when the
  comment holds.
- `crop` keeps points within 0.1 ms outside a moved edge and pulls them onto it. Samples near the
  edge can then change; `Crop.CropKeepsSamplesIff` says exactly when they do not.
- `automation_envelope` says the envelope holds its first value before the first clip. Playback
  clamps its position, so before an envelope that starts on a step it holds the value after the
  step, while `curve_in_range` holds the one before it (`Ranges.RangeAgreesWithPlaybackIff`).

## Model

| member | source | states |
|---|---|---|
| `Validation.ValidateProjectEdit` | crates/donder-model/src/validation.rs:40-59 | An edit of a project that passed is found to have exactly what the whole check finds, the same first error included, though only sequences are checked again when every other store is shared. |
| `Validation.ValidateSequenceSince` | crates/donder-model/src/validation.rs:275-444 | A sequence checked since its validated self, with layer, layout, target, parameter and name checks skipped for shared clips, gives the same first error as with every check made. |
| `Validation.ClipsSince` | crates/donder-model/src/validation.rs:357-412 | The loop over clips with both skips, the one that also needs the first clip unchanged included, equals the loop with every check. |
| `Validation.ClipAgrees` | crates/donder-model/src/validation.rs:369-411 | For each clip: the checks that remain find what all checks would find. |
| `Validation.NamesAgree` | crates/donder-model/src/validation.rs:476-492 | Holding only changed clips' names to snake case finds the same first bad name. |
| `Validation.UnchangedWasThere` | crates/donder-model/src/validation.rs:280-292 | A clip that is still the allocation it was is a clip of the previous sequence with the same contents, layers and marks. |
| `Validation.PassedClip` | crates/donder-model/src/validation.rs:364-411 | What a sequence that passed says of each of its clips, the premise of the skips. |
| `Validation.FoundPassed` | crates/donder-model/src/project/objects.rs:77-82 | The sequence a valid previous project has under an id is that sequence, and it passed. |
| `Validation.ValidateProject` | crates/donder-model/src/validation.rs:61-126 | Passes exactly the projects that fit, on the fields of their sequences; what it reports otherwise is so. |
| `Validation.ProjectFitsIff` | crates/donder-model/src/validation.rs:61-126 | A project passes exactly when every sequence, stored under its own id or owned in place, fits and the other checks find nothing; for each error, what it says is so. |
| `Validation.SequenceFitsIff` | crates/donder-model/src/validation.rs:275-444 | A sequence passes exactly when frame rate, duration and frame count are in range, clip ids and names distinct, names snake case, marks inside its duration, and every clip on one of its layers, in its time and on the one layout; each error is so. |
| `Validation.RegionFitsIff` | crates/donder-model/src/validation.rs:972-1000 | A clip's region passes exactly when it is not empty and ends within the sequence, in nanoseconds and rounded to microseconds; each problem is so. |
| `Validation.TimingFitsIff` | crates/donder-model/src/validation.rs:312-333 | Timing passes exactly when the rate is 1 to 1000, the rounded duration positive and in 32 bits, and the frames at most 250,000; each problem is so. |
| `Validation.SameContents` | crates/donder-model/src/project.rs:273-292 | Projects that share every store but sequences have the same contents outside them. |
| `Projects.SharedIsCoherent` | crates/donder-model/src/project.rs:53-78 | Two projects in one memory agree on the contents of every store and clip allocation they share. |
| `Projects.StoreMut` | crates/donder-model/src/project.rs:74-78 | Writing a store first copies it unless this project alone holds it: no live project sees a difference, and afterwards no one else holds it. |
| `Projects.WriteClipKeeps` | crates/donder-model/src/project.rs:74-78 | Writing a shared clip in place or in a fresh allocation changes nothing any live project reaches. |
| `Projects.WriteClipSays` | crates/donder-model/src/project.rs:74-78 | And it changes what the written project says at that clip alone. |
| `Projects.StepTaken` | crates/donder-model/src/project.rs:267-269 | Each step of an edit does to the candidate what it says and nothing to any live project. |
| `Projects.Workspace.RunScript` | crates/donder-model/src/project.rs:300-301 | A whole edit closure on the candidate: its contents are the script applied, every live project keeps what it reaches. |
| `Projects.Workspace.TryNew` | crates/donder-model/src/project.rs:217-238 | A new project is live exactly when it fits and is admitted; nothing else changes. |
| `Projects.Workspace.CheckedEdit` | crates/donder-model/src/project.rs:296-308 | The project becomes the edited candidate exactly when the edit was not refused, the candidate fits and it is admitted; otherwise nothing changes, and no other project ever does. |
| `Projects.Workspace.CheckEdit` | crates/donder-model/src/project.rs:302-305 | The incremental check of a copy-on-write candidate decides as the whole check would. |
| `Projects.Workspace.Clone` | crates/donder-model/src/project.rs:300 | A clone shares every store and is valid. |
| `Projects.Workspace.Do` | crates/donder-model/src/project.rs:217-308 | Any one command, creation, edit, clone or drop, has its outcome for the live projects and no other. |
| `Projects.Workspace.Run` | crates/donder-model/src/project.rs:217-308 | After any run of commands, and all along it, every live project fits, and each state comes from the one before by its command. |
| `Projects.VerdictIs` | crates/donder-model/src/project.rs:217-308 | A candidate becomes live only if it fits and admission accepts it; it is turned away as not admitted only if it fits, and as invalid only with an error that is so. |
| `Projects.ViewSays` | crates/donder-model/src/project.rs:53-78 | What validation sees of a project is what its thirteen stores hold, each in its place, clips included. |
| `Curves.SearchAgreesWithWalk` | crates/donder-runtime-types/src/sampling.rs:130-146 | The search for the segment samples as a walk to the last point at or before the position, on every ordered curve: of coincident points the last wins, ends are held. |
| `Curves.SampleIs` | crates/donder-runtime-types/src/sampling.rs:130-146 | A sample is the first value before the points, the last from the last point on, and between two points on the straight line through them. |
| `Curves.SampleAppend` | crates/donder-runtime-types/src/sampling.rs:130-146 | A curve joined of two samples as the part the position falls in, and along the joining segment between. |
| `Curves.SampleInserted` | crates/donder-runtime-types/src/sampling.rs:130-146 | A point put where the curve already passes changes no sample. |
| `Curves.SampleWithin` | crates/donder-runtime-types/src/sampling.rs:130-146 | Samples never leave the range of the values. |
| `Curves.SampleMoved` | crates/donder-runtime-types/src/sampling.rs:130-146 | Moving and scaling positions together with the query changes nothing. |
| `Crop.CropKeepsSamplesIff` | crates/donder-model/src/sequence.rs:192-241 | Cropping leaves every sample of the new window as it was if and only if, at both edges, the curve is level into the points pulled onto it. |
| `Crop.CropKeepsInsideIff` | crates/donder-model/src/sequence.rs:192-241 | The same over the window without its right end. |
| `Crop.ClearCropKeepsSamples` | crates/donder-model/src/sequence.rs:192-241 | With no point within 0.0001 s of the new edges, except on them, cropping keeps every sample of the window. |
| `Crop.CroppedIsWindowed` | crates/donder-model/src/sequence.rs:213-238 | In seconds, the cropped curve is the points inside with those in tolerance pulled onto the edges, or a cut point where content was cut through. |
| `Crop.CroppedIsValid` | crates/donder-model/src/sequence.rs:233-238 | Cropped positions are ordered and in 0..1, values stay normalized, and a curve never becomes empty or appears. |
| `Crop.ToleranceCanBreak` | crates/donder-model/src/sequence.rs:199-203 | A point 0.1 ms before a moved edge changes the sample on the edge: a concrete curve. |
| `Edges.LeftEdgeKeeps` | crates/donder-model/src/sequence.rs:223-227 | What is put at an exact left edge gives the curve's own values from there on. |
| `Edges.RightEdgeKeeps` | crates/donder-model/src/sequence.rs:229-232 | What is put at an exact right edge gives the curve's own values up to it. |
| `Edges.LeftEdgeBreaks` | crates/donder-model/src/sequence.rs:199-227 | A left edge that is not exact differs on the edge itself. |
| `Edges.RightEdgeBreaks` | crates/donder-model/src/sequence.rs:199-232 | A right edge that is not exact differs on it or just before. |
| `Automation.AutomationClip.Crop` | crates/donder-model/src/sequence.rs:192-241 | Cropping in place leaves the clip with exactly the cropped curve and window, and everything else as it was. |
| `Automation.AutomationClip.SplitOff` | crates/donder-model/src/sequence.rs:244-254 | Splitting in place keeps the part before the cut and returns the rest as a new clip: the two meet at the cut, span the whole, and keep bindings and detached targets; outside the clip it does nothing. |
| `Automation.SplitKeepsEnvelopeIff` | crates/donder-model/src/sequence.rs:244-254 | For a target bound through a window that is not flat, splitting leaves the envelope's value at every time if and only if the cut is exact. |
| `Automation.ClearSplitKeepsEnvelope` | crates/donder-model/src/sequence.rs:244-254 | When no point of the curve lies within 0.0001 s of the cut, except on it, splitting changes no target's envelope anywhere. |
| `Automation.SplitKeepsEnvelope` | crates/donder-model/src/sequence.rs:244-254 | An exact split, or one of a clip without a curve, changes no target's envelope at any time. |
| `Automation.InexactSplitShows` | crates/donder-model/src/sequence.rs:244-254 | An inexact split shows at some time in every such target's envelope. |
| `Automation.EnvelopeGivesGoverning` | crates/donder-model/src/sequence.rs:300-364 | At every time the merged envelope gives the value of the governing clip through its own window: the one covering the time, the one before a gap held at its end, the later of two that abut, the first before all of them. |
| `Automation.BoundAre` | crates/donder-model/src/sequence.rs:283-290 | The clips a target sees are exactly those with a binding of it, in order, each value v of their curves taken to low + (high - low) * v by the window of the first such binding. |
| `Automation.BoundApartIff` | crates/donder-model/src/sequence.rs:300-311 | Their pieces are apart exactly when no two clips bound to the target overlap in time. |
| `Automation.EnvelopeIffBound` | crates/donder-model/src/sequence.rs:304-320 | A target has an envelope exactly when some clip has a binding of it. |
| `Automation.EnvelopeGivesClip` | crates/donder-model/src/sequence.rs:283-364 | At every time the envelope gives low + (high - low) times the governing clip's own curve at the time's position in it, by the window of its first binding of the target. |
| `Automation.CoveringClipGoverns` | crates/donder-model/src/sequence.rs:300-364 | A bound clip with a curve governs all the time it covers. |
| `Automation.EnvelopeSpans` | crates/donder-model/src/sequence.rs:311-323 | The envelope starts with the first of its clips to start and ends with the last to end. |
| `Automation.EnvelopePositionsOrdered` | crates/donder-model/src/sequence.rs:319-357 | The merged points are ordered and in 0..1. |
| `Automation.EnvelopeWithoutCurve` | crates/donder-model/src/sequence.rs:324-327 | Clips without any point make an envelope that is missing everywhere. |
| `Automation.EnvelopeInSeconds` | crates/donder-runtime/src/dsl/vm/automation.rs:147-148 | What playback reads from an envelope is its points in seconds, held beyond its ends. |
| `Envelopes.SampleWindowed` | crates/donder-model/src/sequence.rs:154-169 | Looking through a binding's window commutes with sampling. |
| `Envelopes.MergedGives` | crates/donder-model/src/sequence.rs:324-357 | From the first curve on, the merged points sample as the last clip started, its end held across gaps. |
| `Envelopes.MergedBefore` | crates/donder-model/src/sequence.rs:330-344 | Before the first curve its first value is held. |
| `Ranges.AutomationEnvelope` | crates/donder-model/src/sequence.rs:304-364 | The loop that merges clips with a running held value gives none exactly when no clip is bound to the target, and otherwise, when the bound clips do not overlap, each one's curve at each time through the window of its first binding. |
| `Ranges.RangeKeepsSamples` | crates/donder-model/src/sequence.rs:370-395 | The ranged curve samples as the envelope's at every position of the range, steps on both edges included, from 0 to 1, whatever the durations. |
| `Ranges.RangeAgreesWithPlaybackIff` | crates/donder-model/src/sequence.rs:370-395 | At a time of the range, range and envelope a nanosecond long at least, it gives what playback gives, except exactly before an envelope whose last point at position 0 has another value than its first. |
| `Ranges.StepBeforeEnvelopeDiffers` | crates/donder-model/src/sequence.rs:370-395 | A concrete envelope that starts on a step, read before its start. |
| `Areas.AreaFromStart` | crates/donder-runtime-types/src/sampling.rs:196-213 | The walk over the segments computes the area from the first point, arithmetic uninterpreted. |
| `Areas.PrefixAreas` | crates/donder-runtime-types/src/sampling.rs:156-165 | The table's entries are the areas up to each point, the rest of the buffer untouched. |
| `Areas.FindSegment` | crates/donder-runtime-types/src/sampling.rs:178 | The binary search finds the one segment that holds the position. |
| `Areas.AreaFromTable` | crates/donder-runtime-types/src/sampling.rs:173-187 | A search in the table gives the same area, by the same operations in the same order. |
| `Areas.Integral` | crates/donder-runtime-types/src/sampling.rs:148-152 | The walk's integral is the one value the relation allows. |
| `Areas.IntegralTable` | crates/donder-runtime-types/src/sampling.rs:169-171 | The table's integral is that same value, for every ordered list of points and every position. |
| `Areas.IntegralIsUnique` | crates/donder-runtime-types/src/sampling.rs:150-193 | The integral so defined is one value. |
| `Areas.AreaGrows` | crates/donder-runtime-types/src/sampling.rs:193-213 | Over the reals the area grows within a segment, before the first point and after the last by the trapezoid under the sampled curve. |
| `Areas.AreaReaches` | crates/donder-runtime-types/src/sampling.rs:201-209 | Up to the next point it grows by the trapezoid too, whether the curve steps there or not. |
| `Areas.AreaIsContinuous` | crates/donder-runtime-types/src/sampling.rs:193-213 | Between any two positions the area grows at a rate within the range of the values, so it is continuous, across steps too. |
| `Areas.IsAreaIff` | crates/donder-runtime-types/src/sampling.rs:196-213 | That area is the one value the walk and the table compute, over the reals. |
| `Crossings.FirstCrossing` | crates/donder-runtime-types/src/sampling.rs:217-236 | The least position where the curve, steps included, reaches the value, and none exactly when it reaches it nowhere. |
| `Crossings.LastCrossing` | crates/donder-runtime-types/src/sampling.rs:243-276 | The latest arrival not after a position: plateaus count on arrival, steps when they land on the value; none exactly when there is none. |
| `Crossings.LaterSegmentsArriveLater` | crates/donder-runtime-types/src/sampling.rs:244-246 | The slice scanned leaves out no arrival. |
| `Crossings.ArrivalIff` | crates/donder-runtime-types/src/sampling.rs:248-268 | The branches of the scan find where a segment arrives, and only that. |
| `Crossings.ReachedIffSampled` | crates/donder-runtime-types/src/sampling.rs:217-236 | On a curve without steps, the positions reached are exactly those where it samples as the value. |
| `Colors.HueColorOfHue` | crates/donder-runtime-types/src/sampling.rs:503-550 | Every color is the color of its own hue, of any number of turns more, over its chroma and dimmest channel. |
| `Colors.HueOfHueColor` | crates/donder-runtime-types/src/sampling.rs:503-550 | And a hue is the hue of its color, up to whole turns. |
| `Colors.RecolorKeeps` | crates/donder-runtime-types/src/sampling.rs:530-534 | Recoloring keeps intensity, dimmest channel and so chroma. |
| `Colors.RecolorTurns` | crates/donder-runtime-types/src/sampling.rs:530-534 | A color that is not gray then has the hue asked for, or its own plus the shift, within one turn. |
| `Colors.HuesOfPrimaries` | crates/donder-runtime-types/src/sampling.rs:503-527 | Red, green and blue have hues 0, 1/3 and 2/3. |
| `Colors.ShiftsAdd` | crates/donder-runtime-types/src/sampling.rs:530-534 | Two hue shifts make one by their sum. |
| `Colors.WholeTurnsDoNothing` | crates/donder-runtime-types/src/sampling.rs:530-534 | Shifting by whole turns, or replacing a hue by itself, changes nothing. |
| `Colors.HsvNames` | crates/donder-runtime-types/src/sampling.rs:555-558 | Hue, saturation and intensity name a color even when what means nothing is anything at all. |
| `Colors.HsvHas` | crates/donder-runtime-types/src/sampling.rs:555-558 | The color of a hue, a saturation and an intensity has them, the hue within one turn. |
| `Gradients.BorrowFromNeighbors` | crates/donder-runtime-types/src/sampling.rs:326-338 | In place, each meaningless value takes the nearest meaningful one before it, or in a leading run the first after it. |
| `Gradients.MeaningIs` | crates/donder-runtime-types/src/sampling.rs:306-311 | A hue means something unless the color is gray, a saturation unless it is black. |
| `Gradients.UnwrapHues` | crates/donder-runtime-types/src/sampling.rs:312-319 | Unwrapped hues are whole turns from the borrowed ones, and each lies in the half-open half turn around the one before. |
| `Gradients.EncodeGradientStops` | crates/donder-runtime-types/src/sampling.rs:294-322 | Encoded stops are the borrowed and unwrapped coordinates in order. |
| `Gradients.EncodedStopDecodes` | crates/donder-runtime-types/src/sampling.rs:294-386 | Whatever hue and saturation a stop borrowed, its coordinates still decode to its color. |
| `Gradients.SampleGradientStops` | crates/donder-runtime-types/src/sampling.rs:414-436 | Each coordinate the scan gives is the value there of the curve through the stops' coordinates, then decoded. |
| `Gradients.MixedIsCoordinates` | crates/donder-runtime-types/src/sampling.rs:430-451 | Mixing two neighboring stops puts every coordinate on the straight line between theirs. |
| `Gradients.SampleGradient` | crates/donder-runtime-types/src/sampling.rs:279-286 | In linear RGB each channel is the value at the position of the curve through the stops' channels, in HSV each coordinate that through the encoded ones; at a stop it is the last stop's color there, without stops black. |
| `Composition.ValidateAcyclic` | crates/donder-model/src/operator.rs:211-250 | Accepts exactly the graphs with no directed cycle among their nodes; parallel edges count each, edges naming no node not at all. |
| `Composition.TakenIffAcyclic` | crates/donder-model/src/operator.rs:236-249 | The nodes taken when no edge enters them are all of them if and only if there is no cycle. |
| `Composition.IndexedCycleIff` | crates/donder-model/src/operator.rs:212-229 | The indexed graph has a cycle exactly when the graph on ids has. |
| `Composition.ValidateEdges` | crates/donder-model/src/operator.rs:140-144 | Edges are accepted exactly when each leads from a node that is not the root to an input its target has and none repeats. |
| `Composition.ValidateCompositionGraph` | crates/donder-model/src/operator.rs:118-146 | Accepts exactly the well-formed acyclic graphs; a cycle is blamed only when nothing else is wrong, and every error tells what is there. |
| `Composition.RootDependencies` | crates/donder-model/src/operator.rs:149-170 | Exactly the ids from which a path of edges leads to a root. |
| `Layouts.ValidateMembership` | crates/donder-model/src/layout.rs:248-305 | Accepts exactly the layouts whose lists name existing items once each, whose groups are acyclic and whose items are all reachable; every error tells what is there. |
| `Layouts.VisitItem` | crates/donder-model/src/layout.rs:272-294 | A depth-first visit settles everything an item reaches, or finds an item on a cycle. |
| `Layouts.CheckReachable` | crates/donder-model/src/layout.rs:299-304 | An item left uncolored is unreachable, or leads to a cycle, which is reported first. |
| `Layouts.Members` | crates/donder-model/src/layout.rs:128-156 | On every layout each fixture reached from the item, once, and no other; on an acyclic one in the order of the naive depth-first expansion with only first occurrences kept. |
| `Layouts.Contains` | crates/donder-model/src/layout.rs:106-121 | True exactly when the descendant is reached from the ancestor. |
| `Layouts.IndexesAgree` | crates/donder-model/src/layout.rs:89-91 | With distinct ids, searching for an item and looking it up find the same one. |
| `Layouts.LookupsFind` | crates/donder-model/src/layout.rs:89-91 | Of items with one id, the index finds the last and the search the first. |
| `ImportedGroups.LeadsTo` | crates/donder-import/src/setup.rs:575-581 | The memoized search decides whether one group leads to another. |
| `ImportedGroups.ResolveIs` | crates/donder-import/src/setup.rs:554-573 | An entry names the fixture placed under it, else the last group of that name, else nothing. |
| `ImportedGroups.ResolveProfile` | crates/donder-import/src/setup.rs:547-573 | The member lists are, in order, what the entries name. |
| `ImportedGroups.BreakLoops` | crates/donder-import/src/setup.rs:582-600 | Group by group, in place, exactly the members that lead back to the group through the lists as they then are, its own emptied, are dropped. |
| `ImportedGroups.BrokenIsLoopless` | crates/donder-import/src/setup.rs:574-600 | What is left is acyclic, and everything dropped was a group that led back in the lists as they came, whatever they are. |
| `ImportedGroups.LooplessUnchanged` | crates/donder-import/src/setup.rs:582-600 | Lists without a loop keep every member, in order. |
| `ImportedGroups.SurvivesIffReachesFixture` | crates/donder-import/src/setup.rs:601-620 | A group survives the fixpoint exactly when it reaches a fixture. |
| `ImportedGroups.FindEmpty` | crates/donder-import/src/setup.rs:603-620 | The passes end where a group is marked exactly when all its members are. |
| `ImportedGroups.GroupsReachable` | crates/donder-import/src/setup.rs:661-673 | Every group kept is reachable from the top level. |
| `ImportedGroups.FixtureReachable` | crates/donder-import/src/setup.rs:666-672 | So is every fixture placed. |
| `ImportedGroups.ImportedMembershipIff` | crates/donder-import/src/setup.rs:538-674 | From any profile, looping or not, what is built passes the membership check exactly when every placed fixture is named and no group has two entries for a member that stays. |
| `ImportedGroups.DistinctEntriesHaveMembership` | crates/donder-import/src/setup.rs:538-674 | Lists that name each entry once, as the readers give them, with names of their own for all fixtures, always import to a layout that passes. |
| `ImportedGroups.LooplessMembershipIff` | crates/donder-import/src/setup.rs:538-674 | Without loops it shows in the entries: it passes exactly when all fixtures are named and no group lists a fixture twice, or twice a group that leads to one. |
| `ImportedGroups.RepeatedEntryFails` | crates/donder-import/src/setup.rs:554-573 | A profile with one group that names its fixture twice builds a layout that fails the check. |
| `ImportedGroups.ImportGroups` | crates/donder-import/src/setup.rs:538-674 | The whole importer of groups builds that layout: its items are exactly the groups reaching a fixture once loops are broken, with fresh ids, and its top level what none of them lists. |
| `Routing.FindRuns` | crates/donder-import/src/setup.rs:362-394 | Expanding the runs gives back every pixel's slot; no two adjacent runs merge. There are runs exactly when every pixel's output was built and ends within its port; otherwise the first pixel at fault gives the reason, and it is so. |
| `Routing.PlaceFixtures` | crates/donder-import/src/setup.rs:418-460 | The fixtures placed are, in order, each with its runs unless it shares a slot with one placed before it; those placed share no slot. |
| `Routing.PlacedIsApart` | crates/donder-import/src/setup.rs:418-460 | Whatever is placed so shares no slot and has the runs of its own fixtures. |
| `Routing.FixturesMeetIff` | crates/donder-import/src/setup.rs:434-442 | Two fixtures with runs share a slot exactly when a pixel of one does with a pixel of the other, whatever their channel counts. |
| `Routing.ClaimedMeets` | crates/donder-import/src/setup.rs:432-446 | The owner blamed for shared channels is a fixture placed that does share one. |
| `Routing.ValidatePatch` | crates/donder-model/src/validation.rs:136-215 | Accepts exactly the patches with distinct ids whose routes fit, on their fields, and of which no two send to one slot of a port; otherwise reports the first route at fault, with a problem that is so. |
| `Routing.FaultIsSo` | crates/donder-model/src/validation.rs:136-215 | The routes before the one reported make a patch, and what its problem says of it is so. |
| `Routing.RouteSendsRun` | crates/donder-import/src/setup.rs:472-490 | A run's route sends exactly to the run's slots: its 16-bit start loses nothing. |
| `Routing.EveryPixelSent` | crates/donder-import/src/setup.rs:472-490 | Of all routes exactly one sends a pixel of a fixture placed, as part of its span or of the whole fixture, to the pixel's own slot. |
| `Routing.RunsApartIff` | crates/donder-import/src/setup.rs:362-394 | Runs share no slot exactly when the pixels they stand for share none. |
| `Routing.ImportedPatchFits` | crates/donder-import/src/setup.rs:418-490 | The routes of any fixtures placed pass the patch check exactly when none of them has two pixels that share a slot. |
| `Routing.ImportRoutes` | crates/donder-import/src/setup.rs:418-490 | Placing and routing together: each pixel patched is sent by exactly one route of its fixture, to the output built for its slot and at the slot's own offset; the routes are numbered from 1 and pass the check exactly when no fixture placed has two pixels sharing a slot. |
| `Routing.OverlappingFixtureFails` | crates/donder-import/src/setup.rs:362-394 | A fixture with both pixels at one slot is imported as a patch that does not pass. |
| `Chunks.ChunkStarts` | crates/donder-audio-analysis/src/model.rs:112-125 | Starts are one step apart from before the song, the last moved back to end with it. |
| `Chunks.ChunksAreEqual` | crates/donder-audio-analysis/src/model.rs:135-147 | For every song length all chunks are equally long. |
| `Chunks.ChunksSpanSong` | crates/donder-audio-analysis/src/model.rs:112-147 | In numbers: chunks start 6 frames before the song, at most 1488 apart, and end 6 frames after it; they are 1500 frames long, or the whole song and 12. |
| `Chunks.InputHears` | crates/donder-audio-analysis/src/model.rs:149-160 | Position i of a chunk's input is the song's frame there, and silence where the song has none. |
| `Chunks.StartsIncrease` | crates/donder-audio-analysis/src/model.rs:112-125 | Starts strictly increase. |
| `Chunks.FirstPredicting` | crates/donder-audio-analysis/src/model.rs:81-92 | Frame f is predicted by chunk f / 1488 and by none before it. |
| `Chunks.EachStartOnce` | crates/donder-audio-analysis/src/model.rs:54-58 | Every start is in the share of exactly one worker. |
| `Chunks.ShareAscends` | crates/donder-audio-analysis/src/model.rs:54-58 | And there only once. |
| `Chunks.Overlay` | crates/donder-audio-analysis/src/model.rs:82-93 | Each frame ends with the logits of the last chunk written that predicts it. |
| `Chunks.EarliestWins` | crates/donder-audio-analysis/src/model.rs:81 | Written in descending order, the chunk that starts first has the last word. |
| `Chunks.Predict` | crates/donder-audio-analysis/src/model.rs:34-95 | With any number of workers every frame has the logits of chunk f / 1488, none is left without, and a network that answers position by position with g gives every frame g of itself; or some chunk failed with the message given. |
| `Peaks.PeakTimes` | crates/donder-audio-analysis/src/peaks.rs:21-47 | The pass with a running mean yields the times of the groups of peak frames. |
| `Peaks.PeaksAre` | crates/donder-audio-analysis/src/peaks.rs:21-31 | The peak frames are, in order, exactly the positive logits none within three frames exceeds. |
| `Peaks.EveryPeakOnce` | crates/donder-audio-analysis/src/peaks.rs:32-43 | Every peak frame is in exactly one group, in order, and no other frame is. |
| `Peaks.TimesApart` | crates/donder-audio-analysis/src/peaks.rs:33-40 | Times strictly ascend, at least 0.03 s apart. |
| `Peaks.ThreeInARow` | crates/donder-audio-analysis/src/peaks.rs:19-40 | Three adjacent peaks make two times, 0.01 and 0.04 s, not their mean. |
| `Peaks.RunsBecomeMeansIff` | crates/donder-audio-analysis/src/peaks.rs:19-40 | Runs of adjacent peaks become their means if and only if no three peaks are adjacent. |
| `Peaks.Nearest` | crates/donder-audio-analysis/src/peaks.rs:50-55 | The closest beat, the first of several as close. |
| `Peaks.NearestIsMonotone` | crates/donder-audio-analysis/src/peaks.rs:50-55 | A later time is never closest to an earlier beat. |
| `Peaks.FindBeats` | crates/donder-audio-analysis/src/peaks.rs:9-17 | Beats and downbeats strictly ascend, and the downbeats are exactly the beats closest to downbeat peaks. |
| `Polls.Claims.Claim` | apps/desktop/src/desktop_state.rs:221-223 | Claiming swaps the flag to true and succeeds exactly when it was clear. |
| `Polls.Claims.Release` | apps/desktop/src/desktop_state.rs:225-227 | Releasing clears the flag. |
| `Polls.OneOwnerKept` | apps/desktop/src/commands.rs:126-148 | Every step of every thread keeps: at most one thread owns a poll, exactly when its flag is set. |
| `Polls.NoneLostKept` | apps/desktop/src/commands.rs:126-148 | And: an active source nobody polls has someone yet to claim, recheck or reclaim. |
| `Polls.AlwaysSafe` | apps/desktop/src/commands.rs:126-148 | Both hold after any interleaving of any number of activators and pollers. |
| `Polls.ActiveIff` | apps/desktop/src/commands.rs:124-148 | A source is active exactly when it was activated and not deactivated since. |
| `Polls.SettledIsPolled` | apps/desktop/src/commands.rs:124-148 | Once every thread has ended or polls, each active source is polled by exactly one. |
| `Texts.PositionStep` | crates/donder-language-server/src/text.rs:20-28 | Positions count as a reader walks the text: newlines end lines, other characters add as many columns as they have UTF-16 code units. |
| `Texts.LengthsAreEncoded` | crates/donder-language-server/src/text.rs:20-47 | Offsets are lengths of UTF-8 and columns lengths of UTF-16, encodings that give back their text. |
| `Texts.PositionsAscend` | crates/donder-language-server/src/text.rs:20-28 | Later characters have later positions. |
| `Texts.PositionRoundTrip` | crates/donder-language-server/src/text.rs:20-47 | Offset undoes position at every character boundary of any text. |
| `Texts.IndexRoundTrip` | crates/donder-language-server/src/text.rs:30-47 | From any position on a line, offset and back stays on the line, at or past the position, or at the line's end. |
| `Texts.IndexIsFirst` | crates/donder-language-server/src/text.rs:30-47 | And it is the first such character. |
| `Texts.LineIndex.constructor` | crates/donder-language-server/src/text.rs:14-18 | The index holds the byte offset of each line's start. |
| `Texts.LineIndex.PositionAt` | crates/donder-language-server/src/text.rs:20-28 | The byte search gives the position of the character at the offset, clamped to the text; inside a character, the start of its line. |
| `Texts.LineIndex.OffsetAt` | crates/donder-language-server/src/text.rs:30-47 | The walk with a unit counter gives the byte offset of the position's character. |
| `Texts.LineIndex.ThereAndBack` | crates/donder-language-server/src/text.rs:20-47 | From the byte offset of any character boundary to its position and back. |
| `Edits.ChangedText` | crates/donder-language-server/src/lib.rs:826-854 | With the cached line index for the first change, the text is every change made to the text before it. |
| `Edits.ApplyEdits` | crates/donder-language-server/src/lib.rs:858-876 | Edits that do not overlap, from last to first, equal all replaced at once. |
| `Edits.OrderDoesNotMatter` | crates/donder-language-server/src/lib.rs:858-876 | In whatever order they are listed. |
| `Tokens.Encode` | crates/donder-language-server/src/tokens.rs:79-113 | For tokens in source order no difference is negative, and decoding gives back the place of every token with a character and no newline inside, and of no other. |
| `Tokens.IsSentIff` | crates/donder-language-server/src/tokens.rs:84-90 | A token is sent exactly when it has a character and no newline is inside it. |

## Left out

- The compiler, loader, bytecode interpreter, file formats, sockets, MIDI, OSC, audio decoding and the user interface: input, output and wrappers.
- Floating-point rounding in curves, colors and logits; NaN is an option or left out, so a NaN position in a curve integral is not modelled.
- Oklab gradients: their matrices are only approximate inverses.
- `curve_window_points`: it inserts no cut point, so it does not keep samples.
- Validation.ValidateProject: the checks of definitions, fixtures, controllers, devices, layouts, patches, setups, consoles and automation clips are functions of what they read, not opened up; of ownership only the sequence store's keys are.
- Validation.ValidateSequenceSince: a target, a parameter list and the layers and graph are each one check; times, names, marks and the order of all checks are modelled.
- Projects.Workspace.CheckedEdit: admission is a function of the candidate and the project it was edited from, not opened up, and the value an edit returns is not modelled. An edit is any list of writes of store data, clips and sequence lists.
- Projects.Workspace.TryNew: clips of new data are allocated apart, not shared among themselves.
- Automation.SplitKeepsEnvelopeIff: asks for a binding window that is not flat, since through a flat one no difference can show.
- Ranges.RangeAgreesWithPlaybackIff: durations are a nanosecond at least; the program counts whole ones, and raises zero to an epsilon.
- `detach_bindings`, `bind` and `remove_bindings`: they only move list entries.
- Crossings.LastCrossing: the position asked about is finite.
- Layouts.ValidateMembership: errors carry ids, without the names shown beside them.
- ImportedGroups.ImportGroups: the report of dropped members and the groups' unique names are not modelled; the name table's arbitrary order is a parameter; ids are not cut to 32 bits.
- Routing.FindRuns: slot offsets do not overflow 32 bits.
- Routing.ImportedPatchFits: takes from the controllers built that each output is a port of its own, of as many slots as the profile says and at most 65,535; the fitted definition has a pixel for each of the profile's.
- Routing.ValidatePatch: a route's target, its pixel count and its encoding's limits are given with it, not looked up in a layout.
- Chunks.Predict: the network is a function of its input that gives one logit per frame or fails; loading it and a thread's panic are not modelled.
- Polls.AlwaysSafe: each load, swap and store is one step in a single order; periods and publishing are not modelled.
- Texts.LineIndex.PositionAt: line and character numbers are not cut to 32 bits.
- Edits.ApplyEdits: edits that overlap or start at one place, which the protocol leaves to the client.
- Tokens.Encode: token types and modifiers are numbers; tokens start and end at characters.
