// One session of a controller: states published as deltas over a FIFO
// channel, merged by the host, and consumed by its ticks.
module ControllerLink {
  import opened Options
  import opened Sequences
  import opened ControllerTypes
  import opened ControllerDelta

  // --------------------------------------------------------------- the host

  /** A tick runs every one-shot target and clears it; an empty item name counts as no target and stays. */
  function Consumed(item: Option<string>): Option<string> {
    if item == Some("") then item else None
  }

  function Ticked(s: ControllerState): ControllerState {
    s.(craft := None, equip := Consumed(s.equip), consume := Consumed(s.consume), place := None)
  }

  class Adapter {
    var state: ControllerState
    var sequence: nat

    constructor ()
      ensures state == EMPTY_STATE && sequence == 0
    {
      state, sequence := EMPTY_STATE, 0;
    }

    method ApplyState(delta: HostDelta, controllerSequence: nat)
      modifies this
      ensures state == Merge(old(state), delta) && sequence == controllerSequence
    {
      sequence := controllerSequence;
      state := Merge(state, delta);
    }

    /** The one-shots that were started, in order. */
    method Tick() returns (started: seq<Action>)
      modifies this
      ensures state == Ticked(old(state)) && sequence == old(sequence)
      ensures started == Started(old(state))
      ensures NothingToStart(old(state), state)
    {
      started := [];
      ghost var s := state;
      if state.craft.Some? {
        started := started + [Craft];
        state := state.(craft := None);
      }
      ghost var one := StartIf(Starts(s, Craft), Craft);
      assert started == one;
      if state.equip.Some? && state.equip.value != "" {
        started := started + [Equip];
        state := state.(equip := None);
      }
      ghost var two := one + StartIf(Starts(s, Equip), Equip);
      MaybeStarted(one, Starts(s, Equip), Equip);
      if state.consume.Some? && state.consume.value != "" {
        started := started + [Consume];
        state := state.(consume := None);
      }
      ghost var three := two + StartIf(Starts(s, Consume), Consume);
      MaybeStarted(two, Starts(s, Consume), Consume);
      if state.place.Some? {
        started := started + [Place];
        state := state.(place := None);
      }
      MaybeStarted(three, Starts(s, Place), Place);
    }
  }

  lemma MaybeStarted(before: seq<Action>, b: bool, a: Action)
    ensures before + StartIf(b, a) == if b then before + [a] else before
  {
  }

  function StartIf(b: bool, a: Action): seq<Action> {
    if b then [a] else []
  }

  /** Whether a tick starts the action. */
  predicate Starts(s: ControllerState, a: Action) {
    match a
    case Craft => s.craft.Some?
    case Equip => s.equip.Some? && s.equip.value != ""
    case Consume => s.consume.Some? && s.consume.value != ""
    case Place => s.place.Some?
    case _ => false
  }

  function Started(s: ControllerState): seq<Action> {
    StartIf(Starts(s, Craft), Craft) + StartIf(Starts(s, Equip), Equip) + StartIf(Starts(s, Consume), Consume)
      + StartIf(Starts(s, Place), Place)
  }

  /** What a tick must start: every target that is set, where an empty item name is none, and nothing else. */
  ghost predicate StartsAll(s: ControllerState, started: seq<Action>) {
    && (Craft in started <==> s.craft != None)
    && (Equip in started <==> s.equip != None && s.equip != Some(""))
    && (Consume in started <==> s.consume != None && s.consume != Some(""))
    && (Place in started <==> s.place != None)
    && InTurn(started)
  }

  /** Craft, equip, consume, place: in this order, each once at most, and no other action. */
  ghost predicate InTurn(started: seq<Action>) {
    started == []
    || (InTurn(started[..|started| - 1]) && LastTurn(started[..|started| - 1]) < Turn(started[|started| - 1]))
  }

  function LastTurn(started: seq<Action>): nat {
    if started == [] then 0 else Turn(started[|started| - 1])
  }

  function Turn(a: Action): nat {
    match a
    case Craft => 1
    case Equip => 2
    case Consume => 3
    case Place => 4
    case _ => 0
  }

  /** After a tick no target is left to start, and the sustained targets are as before. */
  ghost predicate NothingToStart(before: ControllerState, after: ControllerState) {
    && after.craft == None && after.place == None
    && (after.equip == None || (after.equip == Some("") && before.equip == Some("")))
    && (after.consume == None || (after.consume == Some("") && before.consume == Some("")))
    && after.goto_ == before.goto_ && after.break_ == before.break_ && after.attack == before.attack
  }

  lemma OneMoreTurn(started: seq<Action>, b: bool, a: Action)
    requires InTurn(started) && LastTurn(started) < Turn(a)
    ensures InTurn(started + StartIf(b, a)) && LastTurn(started + StartIf(b, a)) <= Turn(a)
  {
    AppendNothing(started);
    if b {
      InitOfAppend(started, [a]);
    }
  }

  lemma StartedInTurn(s: ControllerState)
    ensures InTurn(Started(s))
  {
    var craft, equip, consume, place := Starts(s, Craft), Starts(s, Equip), Starts(s, Consume), Starts(s, Place);
    var one := [] + StartIf(craft, Craft);
    var two := one + StartIf(equip, Equip);
    var three := two + StartIf(consume, Consume);
    OneMoreTurn([], craft, Craft);
    OneMoreTurn(one, equip, Equip);
    OneMoreTurn(two, consume, Consume);
    OneMoreTurn(three, place, Place);
    assert one == StartIf(craft, Craft);
  }

  lemma IsStarted(s: ControllerState, a: Action)
    ensures a in Started(s) <==> Starts(s, a)
  {
    StartedOnce(s, a);
    CountedIsIn(Started(s), a);
  }

  /** A tick starts all that the host holds, and leaves nothing to start. */
  lemma TickStartsAll(s: ControllerState)
    ensures StartsAll(s, Started(s)) && NothingToStart(s, Ticked(s))
  {
    StartedInTurn(s);
    IsStarted(s, Craft);
    IsStarted(s, Equip);
    IsStarted(s, Consume);
    IsStarted(s, Place);
  }

  // ----------------------------------------------------------- the protocol

  datatype Step = Publish(desired: ControllerState) | Deliver | HostTick

  /** A tick of the host: how many deltas it had merged, what it held and what it started. */
  datatype Tick = Tick(delivered: int, host: ControllerState, started: seq<Action>)

  /**
   * sent holds every state sent so far, the empty one first; channel the
   * deltas not delivered yet; merges what the host held before each delta it
   * merged.
   */
  datatype Link = Link(
    sent: seq<ControllerState>,
    channel: seq<Delta>,
    host: ControllerState,
    ticks: seq<Tick>,
    merges: seq<ControllerState>)

  const OPENED := Link([EMPTY_STATE], [], EMPTY_STATE, [], [])

  function LastSent(l: Link): ControllerState
    requires l.sent != []
  {
    l.sent[|l.sent| - 1]
  }

  /** How many deltas the host has merged. */
  function Delivered(l: Link): int {
    |l.sent| - 1 - |l.channel|
  }

  function Next(l: Link, step: Step): Link
    requires l.sent != []
  {
    match step
    case Publish(desired) =>
      var delta := Diff(LastSent(l), desired);
      if delta.None? then l else l.(sent := l.sent + [desired], channel := l.channel + [delta.value])
    case Deliver =>
      if l.channel == [] then l
      else l.(channel := l.channel[1..], host := Merge(l.host, Decode(l.channel[0])), merges := l.merges + [l.host])
    case HostTick =>
      l.(host := Ticked(l.host), ticks := l.ticks + [Tick(Delivered(l), l.host, Started(l.host))])
  }

  function Run(l: Link, steps: seq<Step>): (l': Link)
    requires l.sent != []
    ensures l'.sent != []
  {
    if steps == [] then l
    else
      var before := Run(l, steps[..|steps| - 1]);
      Next(before, steps[|steps| - 1])
  }

  // ---------------------------------------------------------------- history

  predicate Sets(d: Delta, a: Action) {
    Holds(d.state, a)
  }

  predicate Holds(s: ControllerState, a: Action) {
    match a
    case Craft => s.craft.Some?
    case Equip => s.equip.Some?
    case Consume => s.consume.Some?
    case Place => s.place.Some?
    case _ => false
  }

  predicate SameTarget(s: ControllerState, t: ControllerState, a: Action) {
    match a
    case Craft => s.craft == t.craft
    case Equip => s.equip == t.equip
    case Consume => s.consume == t.consume
    case Place => s.place == t.place
    case _ => true
  }

  /** The number of the last of the first n deltas that set the field of the action; 0 if none did. */
  function LastSet(sent: seq<ControllerState>, n: nat, a: Action): (k: nat)
    requires n < |sent|
    ensures k <= n
  {
    if n == 0 then 0
    else if Sets(RawDelta(sent[n - 1], sent[n]), a) then n
    else LastSet(sent, n - 1, a)
  }

  /** How many of the first n deltas set the field of the action. */
  function CountSets(sent: seq<ControllerState>, n: nat, a: Action): nat
    requires n < |sent|
  {
    if n == 0 then 0
    else CountSets(sent, n - 1, a) + Bit(Sets(RawDelta(sent[n - 1], sent[n]), a))
  }

  /**
   * How many of the first n deltas took a target away that the host still held: replaced or cleared
   * before any tick.
   */
  function CountDropped(sent: seq<ControllerState>, merges: seq<ControllerState>, n: nat, a: Action): nat
    requires n < |sent| && n <= |merges|
  {
    if n == 0 then 0
    else CountDropped(sent, merges, n - 1, a) + Bit(Holds(merges[n - 1], a) && !SameTarget(sent[n - 1], sent[n], a))
  }

  function CountActions(actions: seq<Action>, a: Action): nat {
    if actions == [] then 0
    else CountActions(actions[..|actions| - 1], a) + Bit(actions[|actions| - 1] == a)
  }

  /** How often the action was started by ticks that had merged at least `from` deltas. */
  function StartsSince(ticks: seq<Tick>, from: int, a: Action): nat {
    if ticks == [] then 0
    else
      var tick := ticks[|ticks| - 1];
      StartsSince(ticks[..|ticks| - 1], from, a) + if tick.delivered >= from then CountActions(tick.started, a) else 0
  }

  function Bit(b: bool): nat {
    if b then 1 else 0
  }

  // ----------------------------------------------------------- the agreement

  predicate SustainedAgree(host: ControllerState, sent: ControllerState) {
    host.goto_ == sent.goto_ && host.break_ == sent.break_ && host.attack == sent.attack
  }

  /**
   * The host holds the target that was sent, or it was started, exactly once,
   * by a tick that came after the delta that set it.
   */
  ghost predicate OneShotAgrees(l: Link, a: Action)
    requires 0 <= Delivered(l) < |l.sent|
  {
    var sent := l.sent[Delivered(l)];
    var k := LastSet(l.sent, Delivered(l), a);
    && (Holds(l.host, a) ==> SameTarget(l.host, sent, a))
    && (Holds(sent, a) ==> StartsSince(l.ticks, k, a) == Bit(!Holds(l.host, a)))
    && (Holds(sent, a) ==> StartedWith(l.ticks, k, sent, a))
  }

  /** Ticks that had merged at least `from` deltas started the action only with this target. */
  ghost predicate StartedWith(ticks: seq<Tick>, from: int, sent: ControllerState, a: Action) {
    forall tick :: tick in ticks && from <= tick.delivered && a in tick.started ==> SameTarget(tick.host, sent, a)
  }

  /** The channel carries the deltas between the states not delivered yet. */
  ghost predicate Carries(l: Link) {
    0 <= Delivered(l) && forall i :: 0 <= i < |l.channel| ==> CarriesAt(l, i)
  }

  ghost predicate CarriesAt(l: Link, i: nat)
    requires 0 <= Delivered(l) && i < |l.channel|
  {
    Diff(l.sent[Delivered(l) + i], l.sent[Delivered(l) + i + 1]) == Some(l.channel[i])
  }

  ghost predicate Recorded(l: Link) {
    && |l.merges| == Delivered(l)
    && forall tick :: tick in l.ticks ==> 0 <= tick.delivered <= Delivered(l)
  }

  ghost predicate Agreed(l: Link) {
    && l.sent != [] && Carries(l) && Recorded(l)
    && SustainedAgree(l.host, l.sent[Delivered(l)])
    && forall a {:trigger OneShotAgrees(l, a)} :: IsOneShot(a) ==> OneShotAgrees(l, a)
  }

  lemma {:induction false} LastSetPrefix(sent: seq<ControllerState>, more: ControllerState, n: nat, a: Action)
    requires n < |sent|
    ensures LastSet(sent + [more], n, a) == LastSet(sent, n, a)
    ensures CountSets(sent + [more], n, a) == CountSets(sent, n, a)
  {
    if n > 0 {
      LastSetPrefix(sent, more, n - 1, a);
    }
  }

  lemma {:induction false} DroppedPrefix(sent: seq<ControllerState>, sent': seq<ControllerState>,
                                         merges: seq<ControllerState>,
                                         merges': seq<ControllerState>, n: nat, a: Action)
    requires n < |sent| && n <= |merges| && sent <= sent' && merges <= merges'
    ensures CountDropped(sent', merges', n, a) == CountDropped(sent, merges, n, a)
  {
    if n > 0 {
      DroppedPrefix(sent, sent', merges, merges', n - 1, a);
    }
  }

  /** What one delta does to a field: kept, taken away or set anew. */
  lemma MergeTarget(host: ControllerState, last: ControllerState, cur: ControllerState, a: Action)
    ensures var d := RawDelta(last, cur);
      var host' := Merge(host, Decode(d));
      && (SameTarget(last, cur, a) ==> !Sets(d, a) && SameTarget(host', host, a))
      && (!SameTarget(last, cur, a) ==> Sets(d, a) == Holds(cur, a) && SameTarget(host', cur, a))
  {
    DecodeRestoresChanges(last, cur);
  }

  lemma SameTargetHolds(s: ControllerState, t: ControllerState, a: Action)
    requires SameTarget(s, t, a)
    ensures Holds(s, a) == Holds(t, a)
  {
  }

  lemma {:induction false} NoStartsYet(ticks: seq<Tick>, from: int, a: Action)
    requires forall tick :: tick in ticks ==> tick.delivered < from
    ensures StartsSince(ticks, from, a) == 0
  {
    if ticks != [] {
      NoStartsYet(ticks[..|ticks| - 1], from, a);
    }
  }

  lemma PublishCarries(l: Link, desired: ControllerState)
    requires l.sent != [] && Carries(l)
    ensures Carries(Next(l, Publish(desired)))
  {
    var l' := Next(l, Publish(desired));
    forall i | 0 <= i < |l'.channel| ensures CarriesAt(l', i) {
      if i < |l.channel| {
        assert CarriesAt(l, i);
      }
    }
  }

  lemma DeliverCarries(l: Link)
    requires l.sent != [] && Carries(l)
    ensures Carries(Next(l, Deliver))
  {
    if l.channel != [] {
      var l' := Next(l, Deliver);
      forall i | 0 <= i < |l'.channel| ensures CarriesAt(l', i) {
        assert CarriesAt(l, i + 1);
      }
    }
  }

  lemma PublishAgrees(l: Link, desired: ControllerState, a: Action)
    requires Agreed(l) && IsOneShot(a)
    ensures Delivered(Next(l, Publish(desired))) == Delivered(l) && OneShotAgrees(Next(l, Publish(desired)), a)
  {
    assert OneShotAgrees(l, a);
    LastSetPrefix(l.sent, desired, Delivered(l), a);
  }

  /** The first delta in the channel, and what merging it does. */
  lemma Delivers(l: Link)
    requires Agreed(l) && l.channel != []
    ensures var k := Delivered(l);
      && Delivered(Next(l, Deliver)) == k + 1
      && l.channel[0] == RawDelta(l.sent[k], l.sent[k + 1])
      && Next(l, Deliver).host == Merge(l.host, Decode(RawDelta(l.sent[k], l.sent[k + 1])))
      && SustainedAgree(Next(l, Deliver).host, l.sent[k + 1])
  {
    var k := Delivered(l);
    assert CarriesAt(l, 0);
    DecodeRestoresChanges(l.sent[k], l.sent[k + 1]);
  }

  lemma DeliverAgrees(l: Link, a: Action)
    requires Agreed(l) && IsOneShot(a) && l.channel != []
    ensures Delivered(Next(l, Deliver)) == Delivered(l) + 1 && OneShotAgrees(Next(l, Deliver), a)
  {
    var k := Delivered(l);
    var host', last, cur := Next(l, Deliver).host, l.sent[k], l.sent[k + 1];
    Delivers(l);
    assert OneShotAgrees(l, a);
    MergeTarget(l.host, last, cur, a);
    if SameTarget(last, cur, a) {
      SameTargetHolds(last, cur, a);
      SameTargetHolds(host', l.host, a);
    } else {
      SameTargetHolds(host', cur, a);
      NoStartsYet(l.ticks, k + 1, a);
    }
  }

  lemma OneMoreTick(ticks: seq<Tick>, tick: Tick, from: int, sent: ControllerState, a: Action)
    ensures StartsSince(ticks + [tick], from, a) == StartsSince(ticks, from, a) +
      if tick.delivered >= from then CountActions(tick.started, a) else 0
    ensures StartedWith(ticks, from, sent, a) && (a in tick.started ==> SameTarget(tick.host, sent, a)) ==>
      StartedWith(ticks + [tick], from, sent, a)
  {
    assert (ticks + [tick])[..|ticks|] == ticks;
  }

  lemma TickAgrees(l: Link, a: Action)
    requires Agreed(l) && IsOneShot(a)
    ensures OneShotAgrees(Next(l, HostTick), a)
  {
    var d := Delivered(l);
    assert OneShotAgrees(l, a);
    TickStarts(l.host, a);
    OneMoreTick(l.ticks, Tick(d, l.host, Started(l.host)), LastSet(l.sent, d, a), l.sent[d], a);
  }

  lemma OneShotStep(l: Link, step: Step, a: Action)
    requires Agreed(l) && IsOneShot(a)
    ensures 0 <= Delivered(Next(l, step)) < |Next(l, step).sent| && OneShotAgrees(Next(l, step), a)
  {
    match step
    case Publish(desired) =>
      PublishAgrees(l, desired, a);
    case Deliver =>
      if l.channel != [] {
        DeliverAgrees(l, a);
      } else {
        assert OneShotAgrees(l, a);
      }
    case HostTick =>
      TickAgrees(l, a);
  }

  /** The rest of the agreement: what is on its way, what is recorded, and the sustained targets. */
  lemma SustainedStep(l: Link, step: Step)
    requires Agreed(l)
    ensures var l' := Next(l, step);
      l'.sent != [] && Carries(l') && Recorded(l') && SustainedAgree(l'.host, l'.sent[Delivered(l')])
  {
    match step
    case Publish(desired) =>
      PublishCarries(l, desired);
    case Deliver =>
      DeliverCarries(l);
      if l.channel != [] {
        Delivers(l);
      }
    case HostTick =>
      forall i | 0 <= i < |l.channel| ensures CarriesAt(Next(l, HostTick), i) {
        assert CarriesAt(l, i);
      }
  }

  lemma StepAgrees(l: Link, step: Step)
    requires Agreed(l)
    ensures Agreed(Next(l, step))
  {
    SustainedStep(l, step);
    forall a | IsOneShot(a) ensures OneShotAgrees(Next(l, step), a) {
      OneShotStep(l, step, a);
    }
  }

  /**
   * However publishing, delivery and ticks interleave, the host agrees with what was sent at the prefix
   * delivered so far.
   */
  lemma {:induction false} HostAgrees(steps: seq<Step>)
    ensures Agreed(Run(OPENED, steps))
  {
    if steps != [] {
      HostAgrees(steps[..|steps| - 1]);
      StepAgrees(Run(OPENED, steps[..|steps| - 1]), steps[|steps| - 1]);
    }
  }

  lemma {:induction false} SomeStart(ticks: seq<Tick>, from: int, a: Action) returns (j: nat)
    requires StartsSince(ticks, from, a) > 0
    ensures j < |ticks| && ticks[j].delivered >= from && a in ticks[j].started
  {
    var n := |ticks| - 1;
    if ticks[n].delivered >= from && CountActions(ticks[n].started, a) > 0 {
      CountedIsIn(ticks[n].started, a);
      j := n;
    } else {
      j := SomeStart(ticks[..n], from, a);
    }
  }

  lemma {:induction false} CountedIsIn(actions: seq<Action>, a: Action)
    ensures CountActions(actions, a) > 0 <==> a in actions
  {
    if actions != [] {
      var n := |actions| - 1;
      CountedIsIn(actions[..n], a);
      assert actions == actions[..n] + [actions[n]];
    }
  }

  /**
   * A one-shot target that was sent and that the host no longer holds was started with that target,
   * after the delta that set it.
   */
  lemma MissingWasStarted(steps: seq<Step>, a: Action)
    requires IsOneShot(a)
    ensures var l := Run(OPENED, steps);
      && 0 <= Delivered(l) < |l.sent|
      && var sent := l.sent[Delivered(l)];
      (Holds(sent, a) && !Holds(l.host, a) ==>
         exists tick :: tick in l.ticks && a in tick.started && SameTarget(tick.host, sent, a)
                        && LastSet(l.sent, Delivered(l), a) <= tick.delivered)
  {
    HostAgrees(steps);
    var l := Run(OPENED, steps);
    assert OneShotAgrees(l, a);
    if Holds(l.sent[Delivered(l)], a) && !Holds(l.host, a) {
      var j := SomeStart(l.ticks, LastSet(l.sent, Delivered(l), a), a);
      assert l.ticks[j] in l.ticks;
    }
  }

  // ------------------------------------------------- an account of every delta

  /**
   * Every delivered delta that set the field was started, is still held, or was replaced or cleared
   * before any tick.
   */
  ghost predicate Balanced(l: Link, a: Action) {
    && Agreed(l)
    && StartsSince(l.ticks, 0, a) + Bit(Holds(l.host, a)) + CountDropped(l.sent, l.merges, Delivered(l), a)
       == CountSets(l.sent, Delivered(l), a)
  }

  lemma {:induction false} CountActionsAppend(xs: seq<Action>, ys: seq<Action>, a: Action)
    ensures CountActions(xs + ys, a) == CountActions(xs, a) + CountActions(ys, a)
  {
    if ys == [] {
      assert xs + ys == xs;
    } else {
      var last := |ys| - 1;
      CountActionsAppend(xs, ys[..last], a);
      assert (xs + ys)[..|xs + ys| - 1] == xs + ys[..last];
    }
  }

  lemma CountFour(w: seq<Action>, x: seq<Action>, y: seq<Action>, z: seq<Action>, a: Action)
    ensures CountActions(w + x + y + z, a) == CountActions(w, a) + CountActions(x, a) + CountActions(y, a)
      + CountActions(z, a)
  {
    CountActionsAppend(w + x + y, z, a);
    CountActionsAppend(w + x, y, a);
    CountActionsAppend(w, x, a);
  }

  lemma CountStart(b: bool, x: Action, a: Action)
    ensures CountActions(StartIf(b, x), a) == Bit(b && x == a)
  {
  }

  lemma StartedOnce(s: ControllerState, a: Action)
    ensures CountActions(Started(s), a) == Bit(Starts(s, a))
  {
    var craft, equip, consume, place := Starts(s, Craft), Starts(s, Equip), Starts(s, Consume), Starts(s, Place);
    CountFour(StartIf(craft, Craft), StartIf(equip, Equip), StartIf(consume, Consume), StartIf(place, Place), a);
    CountStart(craft, Craft, a);
    CountStart(equip, Equip, a);
    CountStart(consume, Consume, a);
    CountStart(place, Place, a);
  }

  /** A tick starts an action once for a target it held and holds no more, and not at all otherwise. */
  lemma TickStarts(s: ControllerState, a: Action)
    ensures CountActions(Started(s), a) + Bit(Holds(Ticked(s), a)) == Bit(Holds(s, a))
    ensures Holds(Ticked(s), a) ==> SameTarget(Ticked(s), s, a)
    ensures a in Started(s) ==> Holds(s, a)
  {
    StartedOnce(s, a);
    CountedIsIn(Started(s), a);
  }

  lemma StepBalances(l: Link, step: Step, a: Action)
    requires Balanced(l, a)
    ensures Balanced(Next(l, step), a)
  {
    StepAgrees(l, step);
    match step
    case Publish(desired) =>
      LastSetPrefix(l.sent, desired, Delivered(l), a);
      DroppedPrefix(l.sent, Next(l, step).sent, l.merges, l.merges, Delivered(l), a);
    case Deliver =>
      if l.channel != [] {
        DeliverBalances(l, a);
      }
    case HostTick =>
      TickStarts(l.host, a);
      OneMoreTick(l.ticks, Tick(Delivered(l), l.host, Started(l.host)), 0, l.host, a);
  }

  lemma MergeBalances(host: ControllerState, last: ControllerState, cur: ControllerState, a: Action)
    ensures var d := RawDelta(last, cur);
      Bit(Holds(Merge(host, Decode(d)), a)) + Bit(Holds(host, a) && !SameTarget(last, cur, a))
          == Bit(Holds(host, a)) + Bit(Sets(d, a))
  {
    var host' := Merge(host, Decode(RawDelta(last, cur)));
    MergeTarget(host, last, cur, a);
    if SameTarget(last, cur, a) {
      SameTargetHolds(host', host, a);
    } else {
      SameTargetHolds(host', cur, a);
    }
  }

  lemma DeliverBalances(l: Link, a: Action)
    requires Balanced(l, a) && l.channel != [] && Agreed(Next(l, Deliver))
    ensures Balanced(Next(l, Deliver), a)
  {
    var k, l' := Delivered(l), Next(l, Deliver);
    Delivers(l);
    DroppedPrefix(l.sent, l.sent, l.merges, l'.merges, k, a);
    MergeBalances(l.host, l.sent[k], l.sent[k + 1], a);
    assert l'.merges[k] == l.host;
  }

  /**
   * In every run, the deltas that set a field are the starts, the target still held, and those dropped
   * before a tick.
   */
  lemma {:induction false} DeltasAreAccounted(steps: seq<Step>, a: Action)
    ensures Balanced(Run(OPENED, steps), a)
  {
    if steps != [] {
      DeltasAreAccounted(steps[..|steps| - 1], a);
      StepBalances(Run(OPENED, steps[..|steps| - 1]), steps[|steps| - 1], a);
    }
  }

  // ------------------------------------------------ what each step is about

  /** Publishing makes the state the last one sent; a delta goes into the channel if it differs from the one before. */
  lemma PublishExactly(l: Link, desired: ControllerState)
    requires l.sent != []
    ensures var l' := Next(l, Publish(desired));
      && LastSent(l') == desired
      && (desired == LastSent(l) ==> l' == l)
      && (desired != LastSent(l) ==>
            && l'.sent == l.sent + [desired] && |l'.channel| == |l.channel| + 1 && l.channel <= l'.channel
            && Diff(LastSent(l), desired) == Some(l'.channel[|l.channel|]))
      && l'.host == l.host && l'.ticks == l.ticks && l'.merges == l.merges
  {
    DiffNoneWhenEqual(LastSent(l), desired);
  }

  /** Delivering takes the oldest delta out of the channel and merges it; from an empty channel nothing comes. */
  lemma DeliverExactly(l: Link)
    requires l.sent != []
    ensures var l' := Next(l, Deliver);
      && (l.channel == [] ==> l' == l)
      && (l.channel != [] ==>
            l.channel == [l.channel[0]] + l'.channel && l'.host == Merge(l.host, Decode(l.channel[0]))
            && l'.merges == l.merges + [l.host])
      && l'.sent == l.sent && l'.ticks == l.ticks
  {
  }

  /** In every run, a host that has merged everything has the sustained targets that were published last. */
  lemma CaughtUp(steps: seq<Step>, desired: ControllerState)
    requires Next(Run(OPENED, steps), Publish(desired)).channel == []
    ensures SustainedAgree(Run(OPENED, steps).host, desired)
  {
    HostAgrees(steps);
    PublishExactly(Run(OPENED, steps), desired);
  }

  // ------------------------------------------------------ ticks in every run

  function CountTicks(steps: seq<Step>): nat {
    if steps == [] then 0 else CountTicks(steps[..|steps| - 1]) + Bit(steps[|steps| - 1].HostTick?)
  }

  /** In every run, every tick is recorded, and each started all that the host held then. */
  lemma {:induction false} EveryTickStartsAll(steps: seq<Step>)
    ensures var l := Run(OPENED, steps);
      && |l.ticks| == CountTicks(steps)
      && forall tick :: tick in l.ticks ==> StartsAll(tick.host, tick.started)
  {
    if steps != [] {
      EveryTickStartsAll(steps[..|steps| - 1]);
      TickStartsAll(Run(OPENED, steps[..|steps| - 1]).host);
    }
  }

  /** After any run, a tick starts all that the host holds, with its targets, and the host holds none of it any more. */
  lemma NothingWaitsAfterATick(steps: seq<Step>)
    ensures var l := Run(OPENED, steps);
      var l' := Next(l, HostTick);
      && |l'.ticks| == |l.ticks| + 1 && l'.ticks[..|l.ticks|] == l.ticks
      && l'.ticks[|l.ticks|].host == l.host && l'.ticks[|l.ticks|].delivered == Delivered(l)
      && StartsAll(l.host, l'.ticks[|l.ticks|].started) && NothingToStart(l.host, l'.host)
      && l'.sent == l.sent && l'.channel == l.channel
  {
    TickStartsAll(Run(OPENED, steps).host);
  }

  /** In every run, each action is started at most once for every delivered delta that set its field. */
  lemma StartedAtMostOncePerDelta(steps: seq<Step>, a: Action)
    ensures var l := Run(OPENED, steps);
      0 <= Delivered(l) < |l.sent| && StartsSince(l.ticks, 0, a) <= CountSets(l.sent, Delivered(l), a)
  {
    DeltasAreAccounted(steps, a);
  }
}
