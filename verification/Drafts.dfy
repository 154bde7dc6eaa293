/**
 * Debounced draft saving (frontend/hooks/messaging/useDraft.ts) for one enquiry and channel after its
 * draft was loaded, against the server's upsert and update (backend/src/modules/outbound/draft.service.ts).
 */
module Drafts {
  import opened Options

  /** A field of a patch object: not there, there with the value undefined, or there with a text. */
  datatype Field = Absent | Undefined | Set(value: string)

  datatype Name = Body | Subject

  datatype Patch = Patch(body: Field, subject: Field) {
    function Get(f: Name): Field { if f.Body? then body else subject }
  }

  datatype Text = Text(body: string, subject: string) {
    function At(f: Name): string { if f.Body? then body else subject }
  }

  const EMPTY_PATCH := Patch(Absent, Absent)

  /** Object spread: whatever key is present in the later object wins, even when its value is undefined. */
  function MergeField(earlier: Field, later: Field): Field {
    if later.Absent? then earlier else later
  }

  function Merge(earlier: Patch, later: Patch): Patch {
    Patch(MergeField(earlier.body, later.body), MergeField(earlier.subject, later.subject))
  }

  /** Applying a patch, on the screen and on the server alike: undefined changes nothing. */
  function Overlay(t: Text, p: Patch): Text {
    Text(if p.body.Set? then p.body.value else t.body, if p.subject.Set? then p.subject.value else t.subject)
  }

  /** Merging patches is applying them one after the other, unless the later one blanks out a set field. */
  lemma MergeComposesIff(a: Patch, b: Patch)
    ensures (forall t :: Overlay(t, Merge(a, b)) == Overlay(Overlay(t, a), b)) <==>
              forall f: Name :: !(a.Get(f).Set? && b.Get(f).Undefined?)
  {
    if f: Name :| a.Get(f).Set? && b.Get(f).Undefined? {
      var other := Text("x" + (if a.body.Set? then a.body.value else ""),
                        "x" + (if a.subject.Set? then a.subject.value else ""));
      assert Overlay(other, Merge(a, b)).At(f) == other.At(f);
      assert Overlay(Overlay(other, a), b).At(f) == a.Get(f).value;
      assert |other.At(f)| == 1 + |a.Get(f).value|;
      assert Overlay(other, Merge(a, b)) != Overlay(Overlay(other, a), b);
    } else {
      forall t ensures Overlay(t, Merge(a, b)) == Overlay(Overlay(t, a), b) {
        assert !(a.Get(Body).Set? && b.Get(Body).Undefined?) && !(a.Get(Subject).Set? && b.Get(Subject).Undefined?);
      }
    }
  }

  // ── The hook ──────────────────────────────────────────────────────────────

  /** Who sent a save; a save for later also carries the text its callback was created with. */
  datatype Origin = ByTimer | ByFlush | ForLater(captured: Text) | Extension

  datatype Save = Save(patch: Patch, origin: Origin)

  datatype Client = Client(
    local: Text,
    pending: Option<Patch>,
    timerArmed: bool,
    hasId: bool,
    flushing: bool,
    /** Saves sent and not answered, oldest first. */
    saves: seq<Save>)

  function Whole(t: Text): Patch { Patch(Set(t.body), Set(t.subject)) }

  function Edited(c: Client, patch: Patch): Client {
    c.(local := Overlay(c.local, patch),
       pending := Some(Merge(c.pending.GetOr(EMPTY_PATCH), patch)), timerArmed := true)
  }

  function Sent(c: Client, origin: Origin): Client
    requires c.pending.Some?
  {
    c.(pending := None, timerArmed := false, saves := c.saves + [Save(c.pending.value, origin)])
  }

  function TimerFired(c: Client): Client {
    if c.pending.None? then c.(timerArmed := false) else Sent(c, ByTimer)
  }

  function Flushed(c: Client): Client {
    if c.pending.None? || c.flushing then c else Sent(c, ByFlush).(flushing := true)
  }

  function Extended(c: Client, captured: Text): Client {
    if c.hasId then c.(saves := c.saves + [Save(Whole(captured), Extension)]) else c
  }

  function SavedForLater(c: Client, captured: Text): Client {
    if c.pending.Some? then Sent(c, ForLater(captured)) else Extended(c, captured)
  }

  /** The oldest save is answered. A failed save is reported and dropped; a save for later goes on either way. */
  function Answered(c: Client, ok: bool): Client
    requires c.saves != []
  {
    var save := c.saves[0];
    var d := c.(saves := c.saves[1..], hasId := c.hasId || (ok && !save.origin.Extension?),
                flushing := c.flushing && !save.origin.ByFlush?);
    if save.origin.ForLater? then Extended(d, save.origin.captured) else d
  }

  class DraftHook {
    var local: Text
    var pendingPatch: Option<Patch>
    var timerArmed: bool
    var draftId: bool
    var flushInFlight: bool
    var saves: seq<Save>

    ghost function Value(): Client
      reads this
    {
      Client(local, pendingPatch, timerArmed, draftId, flushInFlight, saves)
    }

    /** After loading: nothing to save yet. */
    constructor (loaded: Option<Text>)
      ensures Value() == Client(loaded.GetOr(Text("", "")), None, false, loaded.Some?, false, [])
    {
      local, draftId := loaded.GetOr(Text("", "")), loaded.Some?;
      pendingPatch, timerArmed, flushInFlight, saves := None, false, false, [];
    }

    method UpdateDraft(patch: Patch)
      modifies this
      ensures Value() == Edited(old(Value()), patch)
      ensures local.body == (if patch.body.Set? then patch.body.value else old(local).body)
      ensures local.subject == (if patch.subject.Set? then patch.subject.value else old(local).subject)
      ensures pendingPatch.Some? && timerArmed
      ensures pendingPatch.value.body ==
                if !patch.body.Absent? then patch.body
                else if old(pendingPatch).Some? then old(pendingPatch).value.body else Absent
      ensures pendingPatch.value.subject ==
                if !patch.subject.Absent? then patch.subject
                else if old(pendingPatch).Some? then old(pendingPatch).value.subject else Absent
      ensures unchanged(`draftId, `flushInFlight, `saves)
    {
      var nextBody := if patch.body.Set? then patch.body.value else local.body;
      var nextSubject := if patch.subject.Set? then patch.subject.value else local.subject;
      local := Text(nextBody, nextSubject);
      pendingPatch := Some(Merge(pendingPatch.GetOr(EMPTY_PATCH), patch));
      timerArmed := true;
    }

    method OnTimer()
      modifies this
      ensures Value() == TimerFired(old(Value()))
      ensures pendingPatch.None? && !timerArmed && unchanged(`local, `draftId, `flushInFlight)
      ensures saves == old(saves) + (if old(pendingPatch).Some? then [Save(old(pendingPatch).value, ByTimer)] else [])
    {
      timerArmed := false;
      if pendingPatch.None? { return; }
      var toSave := pendingPatch.value;
      pendingPatch := None;
      saves := saves + [Save(toSave, ByTimer)];
    }

    method Flush()
      modifies this
      ensures Value() == Flushed(old(Value()))
      ensures old(pendingPatch).None? || old(flushInFlight) ==> Value() == old(Value())
      ensures old(pendingPatch).Some? && !old(flushInFlight) ==>
                && pendingPatch.None? && !timerArmed && flushInFlight && unchanged(`local, `draftId)
                && saves == old(saves) + [Save(old(pendingPatch).value, ByFlush)]
    {
      if pendingPatch.None? || flushInFlight { return; }
      timerArmed := false;
      var patch := pendingPatch.value;
      pendingPatch := None;
      flushInFlight := true;
      saves := saves + [Save(patch, ByFlush)];
    }

    /** `captured` is the draft of the render that created the callback. */
    method SaveForLater(captured: Text)
      modifies this
      ensures Value() == SavedForLater(old(Value()), captured)
      ensures unchanged(`local, `draftId, `flushInFlight) && pendingPatch.None?
      ensures timerArmed == (old(timerArmed) && old(pendingPatch).None?)
      ensures saves == old(saves) + (if old(pendingPatch).Some? then [Save(old(pendingPatch).value, ForLater(captured))]
                                     else if draftId
                                     then [Save(Patch(Set(captured.body), Set(captured.subject)), Extension)] else [])
    {
      if pendingPatch.Some? {
        timerArmed := false;
        var patch := pendingPatch.value;
        pendingPatch := None;
        saves := saves + [Save(patch, ForLater(captured))];
        return;
      }
      if draftId { saves := saves + [Save(Whole(captured), Extension)]; }
    }

    method OnAnswer(ok: bool)
      requires saves != []
      modifies this
      ensures Value() == Answered(old(Value()), ok)
      ensures unchanged(`local, `pendingPatch, `timerArmed)
      ensures draftId == (old(draftId) || (ok && !old(saves)[0].origin.Extension?))
      ensures flushInFlight == (old(flushInFlight) && !old(saves)[0].origin.ByFlush?)
      ensures saves ==
                if !old(saves)[0].origin.ForLater? || !draftId then old(saves)[1..]
                else
                  var captured := old(saves)[0].origin.captured;
                  old(saves)[1..] + [Save(Patch(Set(captured.body), Set(captured.subject)), Extension)]
    {
      var save := saves[0];
      saves := saves[1..];
      if ok && !save.origin.Extension? { draftId := true; }
      if save.origin.ByFlush? { flushInFlight := false; }
      if save.origin.ForLater? && draftId {
        saves := saves + [Save(Whole(save.origin.captured), Extension)];
      }
    }
  }

  // ── Client and server ─────────────────────────────────────────────────────

  /** The server's text: that of the active draft, empty when there is none. */
  datatype State = State(client: Client, server: Text)

  datatype Step =
    | Edit(patch: Patch)
    | Timer
    | Flush
    | SaveForLater(captured: Text)
    | Answer(ok: bool)

  predicate Enabled(s: State, step: Step) {
    match step
    case Timer => s.client.timerArmed
    case Answer(_) => s.client.saves != []
    case _ => true
  }

  function Next(s: State, step: Step): State
    requires Enabled(s, step)
  {
    match step
    case Edit(patch) => s.(client := Edited(s.client, patch))
    case Timer => s.(client := TimerFired(s.client))
    case Flush => s.(client := Flushed(s.client))
    case SaveForLater(captured) => s.(client := SavedForLater(s.client, captured))
    case Answer(ok) =>
      State(Answered(s.client, ok), if ok then Overlay(s.server, s.client.saves[0].patch) else s.server)
  }

  function OverlayAll(t: Text, saves: seq<Save>): Text
    decreases |saves|
  {
    if saves == [] then t else Overlay(OverlayAll(t, saves[..|saves| - 1]), saves[|saves| - 1].patch)
  }

  /** The server's text once every save under way arrives. */
  function Sooner(s: State): Text { OverlayAll(s.server, s.client.saves) }

  /** The server's text once the pending patch is saved too. */
  function Eventually(s: State): Text { Overlay(Sooner(s), s.client.pending.GetOr(EMPTY_PATCH)) }

  /** Nothing typed is lost: what will be saved is what the user sees. */
  predicate Intact(s: State) { Eventually(s) == s.client.local }

  predicate TimerCoversPending(c: Client) { c.pending.Some? ==> c.timerArmed }

  predicate PendingSets(c: Client, f: Name) { c.pending.Some? && c.pending.value.Get(f).Set? }

  predicate SetBy(saves: seq<Save>, f: Name) { exists i :: 0 <= i < |saves| && saves[i].patch.Get(f).Set? }

  /** Saving this text last is harmless: it is the current one, but for what a pending patch will overwrite. */
  predicate Current(c: Client, captured: Text) {
    forall f: Name :: PendingSets(c, f) || captured.At(f) == c.local.At(f)
  }

  /** When a step loses nothing. */
  predicate Lossless(s: State, step: Step) {
    match step
    case Edit(patch) =>
      forall f: Name :: patch.Get(f).Undefined? && PendingSets(s.client, f) ==>
        s.client.pending.value.Get(f).value == Sooner(s).At(f)
    case Timer => true
    case Flush => true
    case SaveForLater(captured) => s.client.pending.None? && s.client.hasId ==> Current(s.client, captured)
    case Answer(ok) =>
      s.client.saves != [] ==>
        var save := s.client.saves[0];
        if save.origin.ForLater? && (s.client.hasId || ok) then Current(s.client, save.origin.captured)
        else ok || forall f: Name :: save.patch.Get(f).Set? ==>
               || save.patch.Get(f).value == s.server.At(f)
               || SetBy(s.client.saves[1..], f)
               || PendingSets(s.client, f)
  }

  // ── Fields of an overlay ──────────────────────────────────────────────────

  lemma OverlayAllSnoc(t: Text, saves: seq<Save>, save: Save)
    ensures OverlayAll(t, saves + [save]) == Overlay(OverlayAll(t, saves), save.patch)
  {
    assert (saves + [save])[..|saves|] == saves;
  }

  lemma {:induction false} OverlayAllHead(t: Text, saves: seq<Save>)
    requires saves != []
    ensures OverlayAll(t, saves) == OverlayAll(Overlay(t, saves[0].patch), saves[1..])
    decreases |saves|
  {
    var last := |saves| - 1;
    if last > 0 {
      OverlayAllHead(t, saves[..last]);
      assert saves[..last][1..] == saves[1..][..last - 1];
    }
  }

  /** Two starting texts lead to the same field when a save sets it, and stay as they were when none does. */
  lemma {:induction false} OverlayAllField(t: Text, u: Text, saves: seq<Save>, f: Name)
    ensures SetBy(saves, f) ==> OverlayAll(t, saves).At(f) == OverlayAll(u, saves).At(f)
    ensures !SetBy(saves, f) ==> OverlayAll(t, saves).At(f) == t.At(f)
    decreases |saves|
  {
    if saves != [] {
      var last := |saves| - 1;
      OverlayAllField(t, u, saves[..last], f);
      if SetBy(saves, f) && !saves[last].patch.Get(f).Set? {
        var i :| 0 <= i < |saves| && saves[i].patch.Get(f).Set?;
        assert saves[..last][i] == saves[i];
      }
      if SetBy(saves[..last], f) {
        var i :| 0 <= i < last && saves[..last][i].patch.Get(f).Set?;
        assert saves[i].patch.Get(f).Set?;
      }
    }
  }

  lemma EqualByFields(t: Text, u: Text)
    ensures t == u <==> forall f: Name :: t.At(f) == u.At(f)
  {
    if forall f: Name :: t.At(f) == u.At(f) {
      assert t.At(Body) == u.At(Body) && t.At(Subject) == u.At(Subject);
    }
  }

  lemma EventuallyAt(s: State, f: Name)
    ensures Eventually(s).At(f) ==
              (if PendingSets(s.client, f) then s.client.pending.value.Get(f).value else Sooner(s).At(f))
  {
  }

  // ── Exactly which steps lose text ─────────────────────────────────────────

  lemma EditKeepsIff(s: State, patch: Patch)
    requires Intact(s)
    ensures Intact(Next(s, Edit(patch))) <==> Lossless(s, Edit(patch))
  {
    var t := Next(s, Edit(patch));
    EqualByFields(Eventually(t), t.client.local);
    forall f: Name ensures Eventually(t).At(f) == t.client.local.At(f) <==>
                             (patch.Get(f).Undefined? && PendingSets(s.client, f) ==>
                                s.client.pending.value.Get(f).value == Sooner(s).At(f)) {
      EventuallyAt(s, f);
      EventuallyAt(t, f);
    }
  }

  lemma SendKeeps(s: State, origin: Origin)
    requires s.client.pending.Some?
    ensures Eventually(s.(client := Sent(s.client, origin))) == Eventually(s)
  {
    OverlayAllSnoc(s.server, s.client.saves, Save(s.client.pending.value, origin));
  }

  /** Saving a captured text last keeps the user's text exactly when it is still current. */
  lemma ExtensionKeepsIff(s: State, c: Client, captured: Text)
    requires c.hasId && s.client == Extended(c, captured)
    requires forall f: Name :: PendingSets(c, f) ==> c.pending.value.Get(f).value == c.local.At(f)
    ensures Intact(s) <==> Current(c, captured)
  {
    OverlayAllSnoc(s.server, c.saves, Save(Whole(captured), Extension));
    assert Sooner(s) == captured;
    EqualByFields(Eventually(s), s.client.local);
    forall f: Name
      ensures Eventually(s).At(f) == s.client.local.At(f) <==> PendingSets(c, f) || captured.At(f) == c.local.At(f)
    {
      EventuallyAt(s, f);
    }
  }

  lemma SaveForLaterKeepsIff(s: State, captured: Text)
    requires Intact(s)
    ensures Intact(Next(s, SaveForLater(captured))) <==> Lossless(s, SaveForLater(captured))
  {
    if s.client.pending.Some? {
      SendKeeps(s, ForLater(captured));
    } else if s.client.hasId {
      ExtensionKeepsIff(Next(s, SaveForLater(captured)), s.client, captured);
    }
  }

  lemma FailureKeepsIff(s: State)
    requires Intact(s) && s.client.saves != [] && (s.client.saves[0].origin.ForLater? ==> !s.client.hasId)
    ensures Intact(Next(s, Answer(false))) <==> Lossless(s, Answer(false))
  {
    var t, save, rest := Next(s, Answer(false)), s.client.saves[0], s.client.saves[1..];
    OverlayAllHead(s.server, s.client.saves);
    EqualByFields(Eventually(t), t.client.local);
    forall f: Name ensures Eventually(t).At(f) == t.client.local.At(f) <==>
                             (save.patch.Get(f).Set? ==>
                                save.patch.Get(f).value == s.server.At(f) || SetBy(rest, f)
                                  || PendingSets(s.client, f)) {
      OverlayAllField(Overlay(s.server, save.patch), s.server, rest, f);
      OverlayAllField(s.server, s.server, rest, f);
      EventuallyAt(s, f);
      EventuallyAt(t, f);
    }
  }

  lemma AnswerKeepsIff(s: State, ok: bool)
    requires Intact(s) && s.client.saves != []
    ensures Intact(Next(s, Answer(ok))) <==> Lossless(s, Answer(ok))
  {
    var t, save := Next(s, Answer(ok)), s.client.saves[0];
    if save.origin.ForLater? && (s.client.hasId || ok) {
      var d := s.client.(saves := s.client.saves[1..], hasId := true);
      forall f: Name | PendingSets(d, f) ensures d.pending.value.Get(f).value == d.local.At(f) { EventuallyAt(s, f); }
      ExtensionKeepsIff(t, d, save.origin.captured);
      assert Current(d, save.origin.captured) <==> Current(s.client, save.origin.captured);
    } else if ok {
      OverlayAllHead(s.server, s.client.saves);
    } else {
      FailureKeepsIff(s);
    }
  }

  /** The exact condition: a step keeps everything the user typed if and only if it is lossless. */
  lemma StepKeepsIff(s: State, step: Step)
    requires Intact(s) && Enabled(s, step)
    ensures Intact(Next(s, step)) <==> Lossless(s, step)
  {
    match step
    case Edit(patch) => EditKeepsIff(s, patch);
    case Timer => if s.client.pending.Some? { SendKeeps(s, ByTimer); }
    case Flush => if s.client.pending.Some? && !s.client.flushing { SendKeeps(s, ByFlush); }
    case SaveForLater(captured) => SaveForLaterKeepsIff(s, captured);
    case Answer(ok) => AnswerKeepsIff(s, ok);
  }

  // ── Whole runs ────────────────────────────────────────────────────────────

  ghost predicate ValidRun(s: State, steps: seq<Step>)
    decreases |steps|
  {
    steps == [] || (Enabled(s, steps[0]) && ValidRun(Next(s, steps[0]), steps[1..]))
  }

  ghost predicate LosslessRun(s: State, steps: seq<Step>)
    requires ValidRun(s, steps)
    decreases |steps|
  {
    steps == [] || (Lossless(s, steps[0]) && LosslessRun(Next(s, steps[0]), steps[1..]))
  }

  ghost function Final(s: State, steps: seq<Step>): State
    requires ValidRun(s, steps)
    decreases |steps|
  {
    if steps == [] then s else Final(Next(s, steps[0]), steps[1..])
  }

  predicate Loaded(s: State) {
    s.client.pending.None? && s.client.saves == [] && s.client.local == s.server
  }

  /** A pending patch always has an armed timer, on every run whatsoever. */
  lemma {:induction false} PendingIsTimed(s: State, steps: seq<Step>)
    requires TimerCoversPending(s.client) && ValidRun(s, steps)
    ensures TimerCoversPending(Final(s, steps).client)
    decreases |steps|
  {
    if steps != [] {
      PendingIsTimed(Next(s, steps[0]), steps[1..]);
    }
  }

  lemma {:induction false} IntactRun(s: State, steps: seq<Step>)
    requires Intact(s) && ValidRun(s, steps) && LosslessRun(s, steps)
    ensures Intact(Final(s, steps))
    decreases |steps|
  {
    if steps != [] {
      StepKeepsIff(s, steps[0]);
      IntactRun(Next(s, steps[0]), steps[1..]);
    }
  }

  /**
   * Coalescing loses nothing: after loading, on every lossless run, the server's draft with the saves
   * under way and the pending patch is the local draft; once nothing is left to save it is the server's.
   */
  lemma CoalescingLosesNothing(s: State, steps: seq<Step>)
    requires Loaded(s) && ValidRun(s, steps) && LosslessRun(s, steps)
    ensures var t := Final(s, steps);
            && Eventually(t) == t.client.local
            && (t.client.saves == [] && !t.client.timerArmed ==> t.server == t.client.local)
  {
    IntactRun(s, steps);
    PendingIsTimed(s, steps);
  }

  /** Edits by whole fields, timers, flushes and successful answers to them are lossless in every state. */
  predicate Plain(s: State, step: Step) {
    match step
    case Edit(patch) => !patch.body.Undefined? && !patch.subject.Undefined?
    case Timer => true
    case Flush => true
    case SaveForLater(_) => false
    case Answer(ok) => ok && (s.client.saves != [] ==> !s.client.saves[0].origin.ForLater?)
  }

  lemma PlainIsLossless(s: State, step: Step)
    requires Plain(s, step)
    ensures Lossless(s, step)
  {
    if step.Edit? {
      forall f: Name ensures !step.patch.Get(f).Undefined? {}
    }
  }

  // ── A flush delivers ──────────────────────────────────────────────────────

  function Flushes(saves: seq<Save>): nat
    decreases |saves|
  {
    if saves == [] then 0 else Flushes(saves[..|saves| - 1]) + (if saves[|saves| - 1].origin.ByFlush? then 1 else 0)
  }

  lemma FlushesSnoc(saves: seq<Save>, save: Save)
    ensures Flushes(saves + [save]) == Flushes(saves) + (if save.origin.ByFlush? then 1 else 0)
  {
    assert (saves + [save])[..|saves|] == saves;
  }

  lemma {:induction false} FlushesHead(saves: seq<Save>)
    requires saves != []
    ensures Flushes(saves) == Flushes(saves[1..]) + (if saves[0].origin.ByFlush? then 1 else 0)
    decreases |saves|
  {
    var last := |saves| - 1;
    if last > 0 {
      FlushesHead(saves[..last]);
      assert saves[..last][1..] == saves[1..][..last - 1];
    }
  }

  /** A flush counts as under way exactly while its save is, and there is one at most. */
  predicate FlushIsItsSave(c: Client) {
    Flushes(c.saves) == if c.flushing then 1 else 0
  }

  lemma ExtensionIsNoFlush(c: Client, captured: Text)
    requires FlushIsItsSave(c)
    ensures FlushIsItsSave(Extended(c, captured))
  {
    FlushesSnoc(c.saves, Save(Whole(captured), Extension));
  }

  lemma FlushStep(s: State, step: Step)
    requires FlushIsItsSave(s.client) && Enabled(s, step)
    ensures FlushIsItsSave(Next(s, step).client)
  {
    var c := s.client;
    match step
    case Edit(_) =>
    case Timer => if c.pending.Some? { FlushesSnoc(c.saves, Save(c.pending.value, ByTimer)); }
    case Flush => if c.pending.Some? { FlushesSnoc(c.saves, Save(c.pending.value, ByFlush)); }
    case SaveForLater(captured) =>
      if c.pending.Some? { FlushesSnoc(c.saves, Save(c.pending.value, ForLater(captured))); }
      ExtensionIsNoFlush(c, captured);
    case Answer(ok) =>
      FlushesHead(c.saves);
      var save := c.saves[0];
      var d := c.(saves := c.saves[1..], hasId := c.hasId || (ok && !save.origin.Extension?),
                  flushing := c.flushing && !save.origin.ByFlush?);
      if save.origin.ForLater? { ExtensionIsNoFlush(d, save.origin.captured); }
  }

  /** On every run a flush is under way exactly while its one save is, so a finished one never blocks the next. */
  lemma {:induction false} FlushingIffItsSave(s: State, steps: seq<Step>)
    requires FlushIsItsSave(s.client) && ValidRun(s, steps)
    ensures FlushIsItsSave(Final(s, steps).client)
    decreases |steps|
  {
    if steps != [] {
      FlushStep(s, steps[0]);
      FlushingIffItsSave(Next(s, steps[0]), steps[1..]);
    }
  }

  predicate NoneForLater(saves: seq<Save>) {
    forall i :: 0 <= i < |saves| ==> !saves[i].origin.ForLater?
  }

  lemma RunCons(s: State, step: Step, rest: seq<Step>)
    requires Enabled(s, step) && ValidRun(Next(s, step), rest)
    ensures ValidRun(s, [step] + rest) && Final(s, [step] + rest) == Final(Next(s, step), rest)
  {
    assert ([step] + rest)[1..] == rest;
  }

  /** How many steps are left until everything is saved: one for each answer, two for a pending patch. */
  function Left(c: Client): nat {
    |c.saves| + (if c.pending.Some? then 2 else 0)
  }

  /** Nothing typed is lost, nothing is saved for later, and a flush is under way while its save is. */
  predicate Delivering(s: State) {
    Intact(s) && NoneForLater(s.client.saves) && FlushIsItsSave(s.client)
  }

  lemma DeliveringStep(s: State, step: Step)
    requires Delivering(s) && Left(s.client) > 0
    requires step == if s.client.saves != [] then Answer(true) else Flush
    ensures Enabled(s, step) && Delivering(Next(s, step))
    ensures Left(Next(s, step).client) == Left(s.client) - 1 && Next(s, step).client.local == s.client.local
  {
    hide Intact, Lossless;
    FlushStep(s, step);
    assert Plain(s, step);
    PlainIsLossless(s, step);
    StepKeepsIff(s, step);
  }

  lemma Delivered(s: State)
    requires Delivering(s) && Left(s.client) == 0
    ensures s.client.pending.None? && s.client.saves == [] && !s.client.flushing && s.server == s.client.local
  {
  }

  /**
   * A flush delivers: from any state where nothing is lost and no save for later is under way, answering the
   * saves, flushing once and answering that save ends with the user's text on the server and nothing to save.
   */
  lemma {:induction false} FlushDelivers(s: State) returns (steps: seq<Step>)
    requires Intact(s) && NoneForLater(s.client.saves) && FlushIsItsSave(s.client)
    ensures ValidRun(s, steps) && forall i :: 0 <= i < |steps| ==> steps[i] == Flush || steps[i] == Answer(true)
    ensures |steps| == |s.client.saves| + (if s.client.pending.Some? then 2 else 0)
    ensures var t := Final(s, steps);
            && t.client.pending.None? && t.client.saves == [] && !t.client.flushing
            && t.client.local == s.client.local && t.server == s.client.local
    decreases Left(s.client)
  {
    hide Next, Enabled, Intact, NoneForLater, FlushIsItsSave;
    steps := [];
    if Left(s.client) == 0 {
      Delivered(s);
    } else {
      var step := if s.client.saves != [] then Answer(true) else Flush;
      DeliveringStep(s, step);
      var rest := FlushDelivers(Next(s, step));
      RunCons(s, step, rest);
      steps := [step] + rest;
    }
  }

  // ── One save for a burst of edits ─────────────────────────────────────────

  function TypedOver(t: Text, patches: seq<Patch>): Text
    decreases |patches|
  {
    if patches == [] then t else Overlay(TypedOver(t, patches[..|patches| - 1]), patches[|patches| - 1])
  }

  function EditedAll(c: Client, patches: seq<Patch>): Client
    decreases |patches|
  {
    if patches == [] then c else Edited(EditedAll(c, patches[..|patches| - 1]), patches[|patches| - 1])
  }

  lemma {:induction false} BurstPending(c: Client, patches: seq<Patch>, t: Text)
    requires c.pending.None?
    requires forall i :: 0 <= i < |patches| ==> !patches[i].body.Undefined? && !patches[i].subject.Undefined?
    ensures var d := EditedAll(c, patches);
            && d == c.(local := TypedOver(c.local, patches), pending := d.pending,
                       timerArmed := c.timerArmed || patches != [])
            && (d.pending.Some? <==> patches != [])
            && Overlay(t, d.pending.GetOr(EMPTY_PATCH)) == TypedOver(t, patches)
    decreases |patches|
  {
    if patches != [] {
      var init, last := patches[..|patches| - 1], patches[|patches| - 1];
      BurstPending(c, init, t);
      var a := EditedAll(c, init).pending.GetOr(EMPTY_PATCH);
      assert Overlay(t, Merge(a, last)) == Overlay(Overlay(t, a), last);
    }
  }

  /** However many edits come before the timer fires, one save is sent, and it does what all of them did. */
  lemma BurstIsOneSave(c: Client, patches: seq<Patch>, server: Text)
    requires c.pending.None? && patches != []
    requires forall i :: 0 <= i < |patches| ==> !patches[i].body.Undefined? && !patches[i].subject.Undefined?
    ensures var d := TimerFired(EditedAll(c, patches));
            && |d.saves| == |c.saves| + 1 && d.saves[..|c.saves|] == c.saves
            && Overlay(server, d.saves[|c.saves|].patch) == TypedOver(server, patches)
            && d.local == TypedOver(c.local, patches)
  {
    BurstPending(c, patches, server);
  }

  // ── Save for later sends an old text ──────────────────────────────────────

  /**
   * Typing while a save for later is under way: when the timer saves the new text before the first answer
   * comes, the captured text is saved after it and the server ends with the older text.
   */
  lemma SaveForLaterOverwritesEdit(first: Text, second: Text)
    requires first.body != "" && second.body != first.body && second.subject == first.subject == ""
    ensures var s := State(Client(Text("", ""), None, false, false, false, []), Text("", ""));
            var steps := OverwritingSteps(first, second);
            && Loaded(s) && ValidRun(s, steps)
            && Final(s, steps).client.saves == [] && !Final(s, steps).client.timerArmed
            && Final(s, steps).client.local == second && Final(s, steps).server == first
  {
    var steps := OverwritingSteps(first, second);
    var early, late := Save(Patch(Set(first.body), Absent), ForLater(first)),
                       Save(Patch(Set(second.body), Absent), ByTimer);
    var s0 := State(Client(Text("", ""), None, false, false, false, []), Text("", ""));
    var s4 := State(Client(second, None, false, false, false, [early, late]), Text("", ""));
    assert Next(Next(s0, steps[0]), steps[1]) == State(Client(first, None, false, false, false, [early]), Text("", ""));
    assert Next(Next(Next(Next(s0, steps[0]), steps[1]), steps[2]), steps[3]) == s4;
    var s5 := State(Client(second, None, false, true, false, [late, Save(Whole(first), Extension)]), first);
    assert Next(s4, steps[4]) == s5;
    var s7 := State(Client(second, None, false, true, false, []), first);
    assert Next(Next(s5, steps[5]), steps[6]) == s7;
    assert steps[1..][1..] == steps[2..] && steps[2..][1..] == steps[3..] && steps[3..][1..] == steps[4..];
    assert steps[4..][1..] == steps[5..] && steps[5..][1..] == steps[6..] && steps[6..][1..] == [];
    var s6, s1 := Next(s5, steps[5]), Next(s0, steps[0]);
    var s2 := Next(s1, steps[1]);
    var s3 := Next(s2, steps[2]);
    assert ValidRun(s7, steps[6..][1..]) && Final(s7, steps[6..][1..]) == s7;
    assert ValidRun(s6, steps[5..][1..]) && Final(s6, steps[5..][1..]) == s7;
    assert ValidRun(s5, steps[4..][1..]) && Final(s5, steps[4..][1..]) == s7;
    assert ValidRun(s4, steps[3..][1..]) && Final(s4, steps[3..][1..]) == s7;
    assert ValidRun(s3, steps[2..][1..]) && Final(s3, steps[2..][1..]) == s7;
    assert ValidRun(s2, steps[1..][1..]) && Final(s2, steps[1..][1..]) == s7;
    assert ValidRun(s1, steps[1..]) && Final(s1, steps[1..]) == s7;
  }

  function OverwritingSteps(first: Text, second: Text): seq<Step> {
    [Edit(Patch(Set(first.body), Absent)), SaveForLater(first), Edit(Patch(Set(second.body), Absent)),
     Timer, Answer(true), Answer(true), Answer(true)]
  }
}
