/**
 * The saga manager: inbox claim, saga state and outbox in one transaction (sdk/saga.go), and the acknowledgement of
 * effects and compensation steps (sdk/saga_effects.go).
 */
module Saga {
  import opened Common
  import opened Numerals

  datatype EffectStatus = Enqueued | Succeeded | Failed

  datatype Effect = Effect(step: string, status: EffectStatus, commandId: string, attempts: nat)

  datatype Compensation = Compensation(step: string, status: string, attempts: nat)

  /** `data` stands for the fields only the application's handlers write. */
  datatype SagaState = SagaState(
    id: string, correlationId: string, status: string, data: string, retryCount: nat, version: nat,
    effects: map<string, Effect>, compensation: Option<Compensation>)

  datatype Command = Command(id: string, effectId: string, typ: string, sagaId: string, correlationId: string,
      causationId: string, payload: string)

  datatype Event = Event(id: string, typ: string, associationKey: string, correlationId: string, aggregateId: string)

  /** A command in the outbox, with the saga that sent it. */
  datatype Sent = Sent(key: string, command: Command)

  /** What an application handler makes of a state and an event. */
  datatype Handled = Handled(state: SagaState, commands: Result<seq<Command>>)

  /** Handlers leave identity, version and effects alone. */
  ghost predicate Respects(handler: (SagaState, Event) -> Handled) {
    forall s, e {:trigger handler(s, e)} ::
      var t := handler(s, e).state;
      t.id == s.id && t.version == s.version && t.effects == s.effects
  }

  // ---------------------------------------------------------------------------------------------
  // What the records mean

  /** How often a saga's effect was sent. */
  function Sends(outbox: seq<Sent>, key: string, effect: string): nat {
    if outbox == [] then 0
    else Sends(outbox[..|outbox| - 1], key, effect)
         + (var last := outbox[|outbox| - 1]; if last.key == key && last.command.effectId == effect then 1 else 0)
  }

  lemma SendsSnoc(outbox: seq<Sent>, s: Sent, key: string, effect: string)
    ensures Sends(outbox + [s], key, effect)
            == Sends(outbox, key, effect) + if s.key == key && s.command.effectId == effect then 1 else 0
  {
    assert (outbox + [s])[..|outbox|] == outbox;
  }

  function Count(m: map<(string, string), nat>, key: string, effect: string): nat {
    if (key, effect) in m then m[(key, effect)] else 0
  }

  function CommandId(typ: string, id: string, effect: string): string {
    typ + ":" + id + ":" + effect
  }

  /** The effects of one saga have commands of different identities. */
  lemma CommandsOfOneSaga(typ: string, key: string, a: string, b: string)
    ensures CommandId(typ, key, a) == CommandId(typ, key, b) <==> a == b
  {
    var front := typ + ":" + key + ":";
    assert CommandId(typ, key, a)[|front|..] == a && CommandId(typ, key, b)[|front|..] == b;
  }

  /** Effects of different sagas can share a command identity exactly if one key continues the other after a colon. */
  lemma CommandsOfTwoSagas(typ: string, k: string, l: string)
    requires k != l
    ensures (exists a, b :: CommandId(typ, k, a) == CommandId(typ, l, b)) <==> k + ":" <= l + ":" || l + ":" <= k + ":"
  {
    if a, b :| CommandId(typ, k, a) == CommandId(typ, l, b) {
      var n := |typ| + 1;
      assert CommandId(typ, k, a)[n..] == k + ":" + a && CommandId(typ, l, b)[n..] == l + ":" + b;
      OneIsLonger(k + ":", a, l + ":", b);
    }
    if k + ":" <= l + ":" { SharedCommand(typ, k, l); }
    if l + ":" <= k + ":" { SharedCommand(typ, l, k); }
  }

  lemma OneIsLonger(x: string, a: string, y: string, b: string)
    requires x + a == y + b
    ensures x <= y || y <= x
  {
    assert (x + a)[..|x|] == x && (y + b)[..|y|] == y;
    if |x| <= |y| { assert y[..|x|] == (x + a)[..|x|]; } else { assert x[..|y|] == (y + b)[..|y|]; }
  }

  lemma SharedCommand(typ: string, k: string, l: string)
    requires k + ":" <= l + ":"
    ensures CommandId(typ, k, (l + ":")[|k| + 1..]) == CommandId(typ, l, "")
  {
    var rest := (l + ":")[|k| + 1..];
    assert l + ":" == k + ":" + rest;
    assert CommandId(typ, k, rest) == typ + ":" + (k + ":" + rest);
    assert CommandId(typ, l, "") == typ + ":" + (l + ":" + "");
  }

  /** One effect against the outbox and the failures recorded for it. */
  ghost predicate EffectOk(typ: string, key: string, name: string, e: Effect, sent: nat, failures: nat) {
    && e.attempts == sent && e.commandId == CommandId(typ, key, name)
    && e.attempts == failures + if e.status.Failed? then 0 else 1
  }

  ghost predicate EffectsOk(typ: string, key: string, effects: map<string, Effect>, outbox: seq<Sent>,
                            failures: map<(string, string), nat>) {
    && (forall name | name in effects :: EffectOk(typ, key, name, effects[name], Sends(outbox, key, name),
        Count(failures, key, name)))
    && (forall name | name !in effects :: Sends(outbox, key, name) == 0 && Count(failures, key, name) == 0)
  }

  function EffectsOf(sagas: map<string, SagaState>, key: string): map<string, Effect> {
    if key in sagas then sagas[key].effects else map[]
  }

  /** A command carries the identity of its effect, whatever attempt it belongs to. */
  ghost predicate Stamped(typ: string, outbox: seq<Sent>) {
    forall i | 0 <= i < |outbox| :: outbox[i].command.id == CommandId(typ, outbox[i].key, outbox[i].command.effectId)
  }

  /** Every saga's effects match its outbox commands and recorded failures, and its version counts its saves. */
  ghost predicate Inv(typ: string, sagas: map<string, SagaState>, outbox: seq<Sent>,
                      failures: map<(string, string), nat>, saves: map<string, nat>) {
    && (forall key :: EffectsOk(typ, key, EffectsOf(sagas, key), outbox, failures))
    && (forall key | key in sagas :: sagas[key].id == key && key in saves && sagas[key].version == saves[key])
    && (forall key | key in saves :: key in sagas) && Stamped(typ, outbox)
  }

  /**
   * Attempts are the commands sent and exceed the recorded failures by at most one, exactly while the effect is under
   * way or done. The command id does not depend on the attempt, so it cannot tell attempts apart.
   */
  lemma AttemptsAreSends(typ: string, sagas: map<string, SagaState>, outbox: seq<Sent>,
                         failures: map<(string, string), nat>, saves: map<string, nat>,
                         key: string, name: string)
    requires Inv(typ, sagas, outbox, failures, saves) && key in sagas && name in sagas[key].effects
    ensures sagas[key].effects[name].attempts == Sends(outbox, key, name)
    ensures Count(failures, key, name) <= sagas[key].effects[name].attempts <= Count(failures, key, name) + 1
    ensures sagas[key].effects[name].attempts == Count(failures, key, name) <==> sagas[key].effects[name].status.Failed?
    ensures sagas[key].effects[name].commandId == CommandId(typ, key, name) && sagas[key].version == saves[key]
  {
    assert EffectsOk(typ, key, EffectsOf(sagas, key), outbox, failures);
    assert EffectOk(typ, key, name, sagas[key].effects[name], Sends(outbox, key, name), Count(failures, key, name));
  }

  /** The outbox positions that hold an effect's commands. */
  ghost predicate IsSend(outbox: seq<Sent>, i: nat, key: string, effect: string) {
    i < |outbox| && outbox[i].key == key && outbox[i].command.effectId == effect
  }

  lemma {:induction false} SendsAtLeast(outbox: seq<Sent>, key: string, effect: string)
    ensures Sends(outbox, key, effect) >= 1 <==> exists i: nat :: IsSend(outbox, i, key, effect)
    ensures Sends(outbox, key, effect) >= 2 <==>
              exists i: nat, j: nat :: i < j && IsSend(outbox, i, key, effect) && IsSend(outbox, j, key, effect)
  {
    if outbox != [] {
      var n := |outbox| - 1;
      var front := outbox[..n];
      SendsAtLeast(front, key, effect);
      forall i: nat | i < n ensures IsSend(front, i, key, effect) <==> IsSend(outbox, i, key, effect) {
        assert front[i] == outbox[i];
      }
      var last := IsSend(outbox, n, key, effect);
      assert Sends(outbox, key, effect) == Sends(front, key, effect) + if last then 1 else 0;
      if i: nat :| IsSend(outbox, i, key, effect) {
        assert i == n || IsSend(front, i, key, effect);
      }
      if i: nat, j: nat :| i < j && IsSend(outbox, i, key, effect) && IsSend(outbox, j, key, effect) {
        assert IsSend(front, i, key, effect) && (j == n || IsSend(front, j, key, effect));
      }
      if Sends(front, key, effect) >= 1 {
        var i: nat :| IsSend(front, i, key, effect);
        assert i < n && IsSend(outbox, i, key, effect);
      }
    }
  }

  /** An acknowledgement of one attempt passes the fence although a later attempt is the current one. */
  ghost predicate StalePasses(sagas: map<string, SagaState>, outbox: seq<Sent>, key: string, name: string)
    requires key in sagas && name in sagas[key].effects
  {
    exists i: nat, j: nat :: i < j && IsSend(outbox, i, key, name) && IsSend(outbox, j, key, name)
                   && outbox[i].command.id == sagas[key].effects[name].commandId
  }

  /** The command id fences acknowledgements of older attempts exactly if there are none: after one attempt. */
  lemma FenceHoldsExactlyForOneAttempt(typ: string, sagas: map<string, SagaState>, outbox: seq<Sent>,
                                       failures: map<(string, string), nat>, saves: map<string,
                                           nat>, key: string, name: string)
    requires Inv(typ, sagas, outbox, failures, saves) && key in sagas && name in sagas[key].effects
    ensures !StalePasses(sagas, outbox, key, name) <==> sagas[key].effects[name].attempts <= 1
  {
    AttemptsAreSends(typ, sagas, outbox, failures, saves, key, name);
    SendsAtLeast(outbox, key, name);
    if sagas[key].effects[name].attempts >= 2 {
      var i: nat, j: nat :| i < j && IsSend(outbox, i, key, name) && IsSend(outbox, j, key, name);
      assert outbox[i].command.id == CommandId(typ, key, name);
    }
  }

  /** Nothing already succeeded is touched, sagas stay, and attempts and versions never fall. */
  ghost predicate Keeps(before: map<string, SagaState>, sagas: map<string, SagaState>) {
    forall key | key in before ::
      key in sagas && before[key].version <= sagas[key].version && EffectsKeep(before[key].effects, sagas[key].effects)
  }

  ghost predicate EffectsKeep(before: map<string, Effect>, after: map<string, Effect>) {
    forall name | name in before ::
      && name in after && before[name].attempts <= after[name].attempts
      && (before[name].status.Succeeded? ==> after[name] == before[name])
  }

  lemma KeepsIsTransitive(a: map<string, SagaState>, b: map<string, SagaState>, c: map<string, SagaState>)
    requires Keeps(a, b) && Keeps(b, c)
    ensures Keeps(a, c)
  {
  }

  /** What has succeeded has been sent for the last time. */
  lemma NotSentAgain(typ: string, sagas: map<string, SagaState>, outbox: seq<Sent>,
                     failures: map<(string, string), nat>,
                     saves: map<string, nat>, after: map<string, SagaState>, sent: seq<Sent>,
                     failed: map<(string, string), nat>, saved: map<string, nat>, key: string, name: string)
    requires Inv(typ, sagas, outbox, failures, saves) && Inv(typ, after, sent, failed, saved) && Keeps(sagas, after)
    requires SucceededIn(sagas, key, name)
    ensures SucceededIn(after, key, name) && after[key].effects[name] == sagas[key].effects[name]
    ensures Sends(sent, key, name) == Sends(outbox, key, name)
  {
    hide Inv, Sends;
    assert EffectsKeep(sagas[key].effects, after[key].effects);
    AttemptsAreSends(typ, sagas, outbox, failures, saves, key, name);
    AttemptsAreSends(typ, after, sent, failed, saved, key, name);
  }

  predicate SucceededIn(sagas: map<string, SagaState>, key: string, name: string) {
    key in sagas && name in sagas[key].effects && sagas[key].effects[name].status.Succeeded?
  }

  // ---------------------------------------------------------------------------------------------
  // Sending one command

  function Sent1(effects: map<string, Effect>, name: string, step: string, commandId: string): map<string, Effect> {
    effects[name := Effect(step, Enqueued, commandId, (if name in effects then effects[name].attempts else 0) + 1)]
  }

  lemma SendKeeps(typ: string, key: string, effects: map<string, Effect>, outbox: seq<Sent>,
                  failures: map<(string, string), nat>, c: Command, step: string)
    requires EffectsOk(typ, key, effects, outbox, failures)
    requires (c.effectId in effects ==> effects[c.effectId].status.Failed?)
    ensures EffectsOk(typ, key, Sent1(effects, c.effectId, step, CommandId(typ, key, c.effectId)),
        outbox + [Sent(key, c)], failures)
    ensures EffectsKeep(effects, Sent1(effects, c.effectId, step, CommandId(typ, key, c.effectId)))
    ensures forall k, name | k != key :: Sends(outbox + [Sent(key, c)], k, name) == Sends(outbox, k, name)
  {
    var after := Sent1(effects, c.effectId, step, CommandId(typ, key, c.effectId));
    forall k, name
      ensures Sends(outbox + [Sent(key, c)], k, name)
              == Sends(outbox, k, name) + if k == key && name == c.effectId then 1 else 0
    {
      SendsSnoc(outbox, Sent(key, c), k, name);
    }
    forall name | name in after
      ensures EffectOk(typ, key, name, after[name], Sends(outbox + [Sent(key, c)], key, name),
          Count(failures, key, name))
    {
      if name in effects {
        assert EffectOk(typ, key, name, effects[name], Sends(outbox, key, name), Count(failures, key, name));
      }
    }
  }

  /** `prepareCommand`: the identity is the same for every attempt of an effect. */
  function PrepareCommand(c: Command, typ: string, state: SagaState, causation: string, effect: string): (r: Command)
    ensures r.effectId == effect && r.id == CommandId(typ, state.id, effect)
  {
    Command(CommandId(typ, state.id, effect), effect, c.typ, if c.sagaId == "" then state.id else c.sagaId,
            if c.correlationId == "" then state.correlationId else c.correlationId,
            if c.causationId == "" then causation else c.causationId, c.payload)
  }

  function EffectIdOf(c: Command, event: Event, index: nat): string {
    if c.effectId == "" then event.id + ":" + Decimal(index) else c.effectId
  }

  /** A given effect id is kept; a command without one gets the event's id, a colon and its own number. */
  ghost predicate IdFor(id: string, c: Command, event: Event, index: nat) {
    if c.effectId != "" then id == c.effectId
    else event.id + ":" <= id && Numeral(id[|event.id| + 1..], index)
  }

  ghost predicate Identifies(ids: seq<string>, commands: seq<Command>, event: Event) {
    |ids| == |commands| && forall i: nat | i < |ids| :: IdFor(ids[i], commands[i], event, i)
  }

  lemma EffectIdIsFor(c: Command, event: Event, index: nat)
    ensures IdFor(EffectIdOf(c, event, index), c, event, index)
  {
    DecimalIsNumeral(index);
    var front := event.id + ":";
    assert (front + Decimal(index))[|front|..] == Decimal(index);
  }

  /** Ids made up for commands differ unless event and number are the same. */
  lemma MadeUpIdsDiffer(id: string, c: Command, e: Event, i: nat, d: Command, f: Event, j: nat)
    requires c.effectId == "" && d.effectId == "" && IdFor(id, c, e, i) && IdFor(id, d, f, j)
    ensures e.id == f.id && i == j
  {
    ColonEnds(id, c, e, i, f.id);
    ColonEnds(id, d, f, j, e.id);
    assert id[..|e.id|] == e.id && id[..|f.id|] == f.id;
  }

  /** No number has a colon in it. */
  lemma ColonEnds(id: string, c: Command, e: Event, i: nat, other: string)
    requires c.effectId == "" && IdFor(id, c, e, i) && other + ":" <= id
    ensures |other| <= |e.id|
  {
    var number := id[|e.id| + 1..];
    assert id[|other|] == ':';
    assert forall k | 0 <= k < |number| :: number[k] != ':' && number[k] == id[|e.id| + 1 + k];
  }

  predicate IdleIn(effects: map<string, Effect>, name: string) {
    name !in effects || effects[name].status.Failed?
  }

  ghost function Names(ids: seq<string>): set<string> {
    set i | 0 <= i < |ids| :: ids[i]
  }

  /** One effect before and after: sent once more if it is `due`, else as it was. */
  ghost predicate SentIfDue(before: map<string, Effect>, after: map<string, Effect>, sends: nat, sendsAfter: nat,
                            name: string, due: bool) {
    if due then name in after && after[name].status.Enqueued? && sendsAfter == sends + 1
    else (name in after <==> name in before) && (name in before ==> after[name] == before[name]) && sendsAfter == sends
  }

  /** Exactly the wanted effects that are neither under way nor done are sent, once each. */
  ghost predicate SentExactly(before: map<string, Effect>, after: map<string, Effect>, outbox: seq<Sent>,
                              sent: seq<Sent>, key: string, wanted: set<string>) {
    forall name ::
      SentIfDue(before, after, Sends(outbox, key, name), Sends(sent, key, name), name, name in wanted
                && IdleIn(before, name))
  }

  lemma SentMore(before: map<string, Effect>, after: map<string, Effect>, outbox: seq<Sent>, sent: seq<Sent>,
                 key: string, wanted: set<string>,
                 c: Command, step: string, id: string)
    requires SentExactly(before, after, outbox, sent, key, wanted) && IdleIn(after, c.effectId)
    ensures SentExactly(before, Sent1(after, c.effectId, step, id), outbox, sent + [Sent(key, c)], key,
        wanted + {c.effectId})
  {
    var now := Sent1(after, c.effectId, step, id);
    forall name ensures SentIfDue(before, now, Sends(outbox, key, name), Sends(sent + [Sent(key, c)], key, name), name,
                                  name in wanted + {c.effectId} && IdleIn(before, name)) {
      SendsSnoc(sent, Sent(key, c), key, name);
      assert SentIfDue(before, after, Sends(outbox, key, name), Sends(sent, key, name), name, name in wanted
                       && IdleIn(before, name));
    }
  }

  lemma SentEnough(before: map<string, Effect>, after: map<string, Effect>, outbox: seq<Sent>, sent: seq<Sent>,
                   key: string, wanted: set<string>, name: string)
    requires SentExactly(before, after, outbox, sent, key, wanted) && !IdleIn(after, name)
    ensures SentExactly(before, after, outbox, sent, key, wanted + {name})
  {
    forall n
      ensures SentIfDue(before, after, Sends(outbox, key, n), Sends(sent, key, n), n, n in wanted + {name}
                        && IdleIn(before, n))
    {
      assert SentIfDue(before, after, Sends(outbox, key, n), Sends(sent, key, n), n, n in wanted && IdleIn(before, n));
    }
  }

  lemma NothingSent(before: map<string, Effect>, outbox: seq<Sent>, key: string)
    ensures SentExactly(before, before, outbox, outbox, key, {})
  {
  }

  lemma NamesNext(ids: seq<string>, n: nat)
    requires n < |ids|
    ensures Names(ids[..n + 1]) == Names(ids[..n]) + {ids[n]} && (ids[n] in Names(ids[..n]) <==> ids[n] in ids[..n])
  {
    assert ids[..n + 1] == ids[..n] + [ids[n]];
  }

  // ---------------------------------------------------------------------------------------------
  // Which commands are sent

  /** A command is sent if its effect is neither under way nor done, nor asked for by an earlier command. */
  predicate Due(ids: seq<string>, effects: map<string, Effect>, i: nat)
    requires i < |ids|
  {
    (ids[i] in effects ==> effects[ids[i]].status.Failed?) && ids[i] !in ids[..i]
  }

  /** The commands sent, by number. */
  ghost function DueFirst(ids: seq<string>, effects: map<string, Effect>, n: nat): seq<nat>
    requires n <= |ids|
  {
    if n == 0 then []
    else DueFirst(ids, effects, n - 1) + if Due(ids, effects, n - 1) then [n - 1] else []
  }

  /** What the outbox gets for a command: nothing the handler said is changed, and what it left open is filled in. */
  ghost predicate CarriesOut(sent: Sent, asked: Command, typ: string, state: SagaState, event: Event, id: string) {
    && sent.key == state.id && sent.command.effectId == id && sent.command.id == CommandId(typ, state.id, id)
    && sent.command.typ == asked.typ && sent.command.payload == asked.payload
    && (if asked.sagaId != "" then sent.command.sagaId == asked.sagaId else sent.command.sagaId == state.id)
    && (if asked.correlationId != "" then sent.command.correlationId == asked.correlationId
        else sent.command.correlationId == state.correlationId)
    && (if asked.causationId != "" then sent.command.causationId == asked.causationId
        else sent.command.causationId == event.id)
  }

  /** The due ones of the first `n` commands are sent, in their order, and their effects are named after them. */
  ghost predicate SentInOrder(typ: string, state: SagaState, event: Event, commands: seq<Command>, ids: seq<string>,
                              n: nat, outbox: seq<Sent>, sent: seq<Sent>, effects: map<string, Effect>)
    requires n <= |ids| == |commands|
  {
    var due := DueFirst(ids, state.effects, n);
    && |sent| == |outbox| + |due| && outbox <= sent
    && forall k | 0 <= k < |due| ::
         && due[k] < n && CarriesOut(sent[|outbox| + k], commands[due[k]], typ, state, event, ids[due[k]])
         && ids[due[k]] in effects && effects[ids[due[k]]].step == commands[due[k]].typ
  }

  lemma NothingInOrder(typ: string, state: SagaState, event: Event, commands: seq<Command>, ids: seq<string>,
                       outbox: seq<Sent>, effects: map<string, Effect>)
    requires |ids| == |commands|
    ensures SentInOrder(typ, state, event, commands, ids, 0, outbox, outbox, effects)
  {
  }

  lemma InOrderNext(typ: string, state: SagaState, event: Event, commands: seq<Command>, ids: seq<string>, n: nat,
                    outbox: seq<Sent>, sent: seq<Sent>, effects: map<string, Effect>)
    requires n < |ids| == |commands| && SentInOrder(typ, state, event, commands, ids, n, outbox, sent, effects)
    ensures !Due(ids, state.effects, n) ==>
              SentInOrder(typ, state, event, commands, ids, n + 1, outbox, sent, effects)
    ensures Due(ids, state.effects, n) ==>
              var c := PrepareCommand(commands[n], typ, state, event.id, ids[n]);
              SentInOrder(typ, state, event, commands, ids, n + 1, outbox, sent + [Sent(state.id, c)],
                          Sent1(effects, ids[n], commands[n].typ, c.id))
  {
    var due := DueFirst(ids, state.effects, n);
    if Due(ids, state.effects, n) {
      forall k | 0 <= k < |due| ensures ids[due[k]] != ids[n] { assert ids[..n][due[k]] == ids[due[k]]; }
    }
  }

  /** Commands that each have an effect of their own, none of it under way or done, are all sent, one for one. */
  lemma {:induction false} AllAreDue(ids: seq<string>, effects: map<string, Effect>, n: nat)
    requires n <= |ids| && forall i: nat | i < n :: Due(ids, effects, i)
    ensures |DueFirst(ids, effects, n)| == n && forall i | 0 <= i < n :: DueFirst(ids, effects, n)[i] == i
  {
    if n > 0 { AllAreDue(ids, effects, n - 1); }
  }

  /** One send for each command, of its type and payload, and no two for the same effect. */
  ghost predicate OneForOne(commands: seq<Command>, outbox: seq<Sent>, sent: seq<Sent>) {
    && |sent| == |outbox| + |commands| && outbox <= sent
    && (forall i | 0 <= i < |commands| ::
          var c := sent[|outbox| + i].command; c.typ == commands[i].typ && c.payload == commands[i].payload)
    && (forall i, j | |outbox| <= i < j < |sent| :: sent[i].command.effectId != sent[j].command.effectId)
  }

  lemma DueIsOneForOne(typ: string, state: SagaState, event: Event, commands: seq<Command>, ids: seq<string>,
                       outbox: seq<Sent>, sent: seq<Sent>, effects: map<string, Effect>)
    requires |ids| == |commands| && SentInOrder(typ, state, event, commands, ids, |ids|, outbox, sent, effects)
    requires forall i: nat | i < |ids| :: Due(ids, state.effects, i)
    ensures OneForOne(commands, outbox, sent)
    ensures forall i | 0 <= i < |commands| :: sent[|outbox| + i].command.effectId == ids[i]
  {
    AllAreDue(ids, state.effects, |ids|);
    var due := DueFirst(ids, state.effects, |ids|);
    forall i | 0 <= i < |ids| ensures CarriesOut(sent[|outbox| + i], commands[i], typ, state, event, ids[i]) {
      assert due[i] == i;
    }
    forall i, j | |outbox| <= i < j < |sent| ensures sent[i].command.effectId != sent[j].command.effectId {
      var x, y := i - |outbox|, j - |outbox|;
      assert CarriesOut(sent[|outbox| + x], commands[x], typ, state, event, ids[x]);
      assert CarriesOut(sent[|outbox| + y], commands[y], typ, state, event, ids[y]);
      assert Due(ids, state.effects, y) && ids[..y][x] == ids[x];
    }
  }

  /** No two commands that ask for an effect by name ask for the same one, nor for one a nameless command gets. */
  ghost predicate NamesApart(commands: seq<Command>, event: Event) {
    forall i: nat, j: nat | i < |commands| && j < |commands| && i != j && commands[i].effectId != "" ::
      commands[i].effectId != commands[j].effectId
      && (commands[j].effectId == "" ==> !IdFor(commands[i].effectId, commands[j], event, j))
  }

  /** With such names every command has an effect of its own. */
  lemma ApartIsDue(commands: seq<Command>, event: Event, ids: seq<string>, effects: map<string, Effect>, i: nat)
    requires Identifies(ids, commands, event) && NamesApart(commands, event) && i < |ids| && IdleIn(effects, ids[i])
    ensures Due(ids, effects, i)
  {
    forall j | 0 <= j < i ensures ids[j] != ids[i] {
      assert IdFor(ids[j], commands[j], event, j) && IdFor(ids[i], commands[i], event, i);
    }
  }

  /**
   * The command loop: enqueues what is neither under way nor done. `None` if a command is unusable or the outbox
   * refuses. `ids` are the effects the commands stand for.
   */
  method EnqueueAll(typ: string, state: SagaState, event: Event, commands: seq<Command>, outbox: seq<Sent>,
                    refuses: nat -> bool,
                    ghost failures: map<(string, string), nat>)
    returns (r: Option<(map<string, Effect>, seq<Sent>)>, ghost ids: seq<string>)
    requires EffectsOk(typ, state.id, state.effects, outbox, failures) && Stamped(typ, outbox)
    ensures Identifies(ids, commands, event)
    ensures r.Some? ==>
              EffectsOk(typ, state.id, r.value.0, r.value.1, failures) && EffectsKeep(state.effects, r.value.0)
    ensures r.Some? ==> forall k, name | k != state.id :: Sends(r.value.1, k, name) == Sends(outbox, k, name)
    ensures r.Some? ==> SentExactly(state.effects, r.value.0, outbox, r.value.1, state.id, Names(ids))
    ensures r.Some? ==> SentInOrder(typ, state, event, commands, ids, |ids|, outbox, r.value.1, r.value.0)
    ensures r.Some? ==> Stamped(typ, r.value.1) && forall i | 0 <= i < |commands| :: commands[i].typ != ""
    ensures r.None? ==> exists i: nat :: i < |commands| && (commands[i].typ == "" || refuses(i))
  {
    hide EffectsOk, Sends, SentExactly, SentInOrder, Stamped, EffectsKeep, Names, IdFor, Sent1, Due, CommandId;
    var effects, sent := state.effects, outbox;
    ids := seq(|commands|, i requires 0 <= i < |commands| => EffectIdOf(commands[i], event, i));
    forall i: nat | i < |ids| ensures IdFor(ids[i], commands[i], event, i) { EffectIdIsFor(commands[i], event, i); }
    NothingSent(effects, outbox, state.id);
    EffectsKeepSame(effects);
    NothingInOrder(typ, state, event, commands, ids, outbox, effects);
    assert Names(ids[..0]) == {} by { NothingNamed(ids); }
    for i := 0 to |commands|
      invariant EffectsOk(typ, state.id, effects, sent, failures) && EffectsKeep(state.effects, effects)
      invariant Stamped(typ, sent)
      invariant forall k, name | k != state.id :: Sends(sent, k, name) == Sends(outbox, k, name)
      invariant SentExactly(state.effects, effects, outbox, sent, state.id, Names(ids[..i]))
      invariant SentInOrder(typ, state, event, commands, ids, i, outbox, sent, effects)
      invariant forall j | 0 <= j < i :: commands[j].typ != ""
    {
      var c := commands[i];
      if c.typ == "" { return None, ids; }
      var name := EffectIdOf(c, event, i);
      NamesNext(ids, i);
      InOrderNext(typ, state, event, commands, ids, i, outbox, sent, effects);
      IdleIsDue(state.effects, effects, outbox, sent, state.id, ids, i);
      if IdleIn(effects, name) {
        var prepared := PrepareCommand(c, typ, state, event.id, name);
        if refuses(i) { return None, ids; }
        SendKeeps(typ, state.id, effects, sent, failures, prepared, c.typ);
        EffectsKeepOn(state.effects, effects, Sent1(effects, name, c.typ, prepared.id));
        SentMore(state.effects, effects, outbox, sent, state.id, Names(ids[..i]), prepared, c.typ, prepared.id);
        StampedMore(typ, sent, Sent(state.id, prepared));
        effects, sent := Sent1(effects, name, c.typ, prepared.id), sent + [Sent(state.id, prepared)];
      } else {
        SentEnough(state.effects, effects, outbox, sent, state.id, Names(ids[..i]), name);
      }
    }
    assert ids[..|ids|] == ids;
    return Some((effects, sent)), ids;
  }

  /** The loop's own test, on the effects as they have become, picks the commands that are due. */
  lemma IdleIsDue(before: map<string, Effect>, after: map<string, Effect>, outbox: seq<Sent>, sent: seq<Sent>,
                  key: string, ids: seq<string>, i: nat)
    requires i < |ids| && SentExactly(before, after, outbox, sent, key, Names(ids[..i]))
    ensures IdleIn(after, ids[i]) <==> Due(ids, before, i)
  {
    hide Sends;
    var name := ids[i];
    assert name in Names(ids[..i]) <==> name in ids[..i];
    assert SentIfDue(before, after, Sends(outbox, key, name), Sends(sent, key, name), name,
                     name in Names(ids[..i]) && IdleIn(before, name));
  }

  lemma StampedMore(typ: string, sent: seq<Sent>, s: Sent)
    requires Stamped(typ, sent) && s.command.id == CommandId(typ, s.key, s.command.effectId)
    ensures Stamped(typ, sent + [s])
  {
  }

  lemma NothingNamed(ids: seq<string>)
    ensures Names(ids[..0]) == {}
  {
  }

  lemma EffectsKeepOn(a: map<string, Effect>, b: map<string, Effect>, c: map<string, Effect>)
    requires EffectsKeep(a, b) && EffectsKeep(b, c)
    ensures EffectsKeep(a, c)
  {
  }

  /** The saga an event belongs to: the first of the three ids that is given. */
  function KeyOf(event: Event): (key: string)
    ensures key == "" <==> event.associationKey == "" && event.correlationId == "" && event.aggregateId == ""
    ensures event.associationKey != "" ==> key == event.associationKey
    ensures event.associationKey == "" && event.correlationId != "" ==> key == event.correlationId
  {
    if event.associationKey != "" then event.associationKey
    else if event.correlationId != "" then event.correlationId else event.aggregateId
  }

  function Fresh(key: string): SagaState {
    SagaState(key, "", "RUNNING", "", 0, 0, map[], None)
  }

  /** A state as it is stored: one version on. */
  function Saved(state: SagaState): SagaState {
    state.(version := state.version + 1)
  }

  /** In a saga without effects all commands with names apart are sent. */
  lemma AllNewIsOneForOne(typ: string, state: SagaState, event: Event, commands: seq<Command>, ids: seq<string>,
                          outbox: seq<Sent>, sent: seq<Sent>, effects: map<string, Effect>)
    requires Identifies(ids, commands, event)
    requires SentInOrder(typ, state, event, commands, ids, |ids|, outbox, sent, effects)
    ensures (forall name :: name !in state.effects) && NamesApart(commands, event) ==> OneForOne(commands, outbox, sent)
  {
    hide SentInOrder, OneForOne, NamesApart;
    if (forall name :: name !in state.effects) && NamesApart(commands, event) {
      forall i: nat | i < |ids| ensures Due(ids, state.effects, i) {
        ApartIsDue(commands, event, ids, state.effects, i);
      }
      DueIsOneForOne(typ, state, event, commands, ids, outbox, sent, effects);
    }
  }

  predicate Malformed(event: Event) {
    event.id == "" || event.typ == "" || KeyOf(event) == ""
  }

  datatype Outcome = Done | HandlerFailed(reason: string) | RolledBack(reason: string)

  /** A saved saga: the invariant with the new state, outbox and failure record of one key. */
  lemma SaveKeeps(typ: string, sagas: map<string, SagaState>, outbox: seq<Sent>, failures: map<(string, string), nat>,
                  saves: map<string, nat>,
                  key: string, state: SagaState, sent: seq<Sent>, failed: map<(string, string), nat>)
    requires Inv(typ, sagas, outbox, failures, saves)
    requires state.id == key && state.version == (if key in sagas then sagas[key].version else 0) + 1
    requires EffectsOk(typ, key, state.effects, sent, failed) && EffectsKeep(EffectsOf(sagas, key), state.effects)
    requires Stamped(typ, sent)
    requires forall k, name | k != key ::
                Sends(sent, k, name) == Sends(outbox, k, name) && Count(failed, k, name) == Count(failures, k, name)
    ensures Inv(typ, sagas[key := state], sent, failed, saves[key := (if key in saves then saves[key] else 0) + 1])
    ensures Keeps(sagas, sagas[key := state])
  {
    var t := sagas[key := state];
    forall k ensures EffectsOk(typ, k, EffectsOf(t, k), sent, failed) {
      assert EffectsOk(typ, k, EffectsOf(sagas, k), outbox, failures);
    }
    forall k | k in sagas ensures EffectsKeep(sagas[k].effects, t[k].effects) {}
  }

  /** A failure recorded for an effect under way, or its success. */
  lemma SettleKeeps(typ: string, key: string, effects: map<string, Effect>, outbox: seq<Sent>,
                    failures: map<(string, string), nat>, name: string, status: EffectStatus,
                    after: map<string, Effect>, failed: map<(string, string), nat>)
    requires EffectsOk(typ, key, effects, outbox, failures) && name in effects && effects[name].status.Enqueued?
    requires !status.Enqueued?
    requires after == effects[name := effects[name].(status := status)]
    requires failed == if status.Failed? then failures[(key, name) := Count(failures, key, name) + 1] else failures
    ensures EffectsOk(typ, key, after, outbox, failed) && EffectsKeep(effects, after)
    ensures forall k, n | k != key :: Count(failed, k, n) == Count(failures, k, n)
  {
    hide Sends;
    forall n | n in after ensures EffectOk(typ, key, n, after[n], Sends(outbox, key, n), Count(failed, key, n)) {
      assert EffectOk(typ, key, n, effects[n], Sends(outbox, key, n), Count(failures, key, n));
    }
  }

  /** The calls of an application, with the answers of inbox, outbox and repository. */
  datatype Op =
    | HandleEvent(event: Event, claimed: bool, refuses: nat -> bool, saveFails: bool, inboxFails: bool)
    | Answer(key: string, effectId: string, commandId: string, good: bool, saveFails: bool)
    | Compensate(key: string, step: string, saveFails: bool)
    | EndCompensation(key: string, good: bool, saveFails: bool)

  class SagaManager {
    const typ: string
    const handlers: map<string, (SagaState, Event) -> Handled>
    var sagas: map<string, SagaState>
    var outbox: seq<Sent>
    /** How often a failure was recorded for an effect, and how often a saga was saved. */
    ghost var failures: map<(string, string), nat>
    ghost var saves: map<string, nat>

    ghost predicate Valid()
      reads this
    {
      Inv(typ, sagas, outbox, failures, saves) && forall t | t in handlers :: Respects(handlers[t])
    }

    constructor (typ: string, handlers: map<string, (SagaState, Event) -> Handled>)
      requires forall t | t in handlers :: Respects(handlers[t])
      ensures Valid() && this.typ == typ && this.handlers == handlers && sagas == map[] && outbox == []
    {
      this.typ, this.handlers := typ, handlers;
      sagas, outbox, failures, saves := map[], [], map[], map[];
    }

    function LoadOrCreate(key: string): SagaState
      reads this
    {
      if key in sagas then sagas[key] else Fresh(key)
    }

    /** Commits one transaction: state, outbox and failure record change together. */
    method Save(key: string, state: SagaState, sent: seq<Sent>, ghost failed: map<(string, string), nat>)
      requires Valid() && state.id == key && state.version == LoadOrCreate(key).version
      requires EffectsOk(typ, key, state.effects, sent, failed) && EffectsKeep(EffectsOf(sagas, key), state.effects)
      requires Stamped(typ, sent)
      requires forall k, name | k != key ::
                  Sends(sent, k, name) == Sends(outbox, k, name) && Count(failed, k, name) == Count(failures, k, name)
      modifies this
      ensures Valid() && Keeps(old(sagas), sagas)
      ensures sagas == old(sagas)[key := Saved(state)] && outbox == sent && failures == failed
    {
      hide EffectsOk, EffectsKeep, Inv, Keeps, Sends, Stamped;
      var saved := Saved(state);
      SaveKeeps(typ, sagas, outbox, failures, saves, key, saved, sent, failed);
      sagas, outbox, failures := sagas[key := saved], sent, failed;
      saves := saves[key := (if key in saves then saves[key] else 0) + 1];
    }

    lemma LoadedOk(key: string)
      requires Valid()
      ensures LoadOrCreate(key).id == key && EffectsOk(typ, key, LoadOrCreate(key).effects, outbox, failures)
      ensures LoadOrCreate(key).effects == EffectsOf(sagas, key) && Stamped(typ, outbox)
    {
      assert EffectsOk(typ, key, EffectsOf(sagas, key), outbox, failures);
    }

    /** What the event's handler makes of the saga. */
    function HandledOf(event: Event): Handled
      requires event.typ in handlers
      reads this
    {
      var loaded := LoadOrCreate(KeyOf(event));
      handlers[event.typ](if loaded.correlationId == "" then loaded.(correlationId := event.correlationId) else loaded,
          event)
    }

    /** A command the handler asks for has no type, or the outbox would not take it. */
    ghost predicate CannotEnqueue(event: Event, refuses: nat -> bool)
      reads this
    {
      && event.typ in handlers && HandledOf(event).commands.Ok?
      && exists i: nat :: i < |HandledOf(event).commands.value| && (HandledOf(event).commands.value[i].typ == ""
                                                                    || refuses(i))
    }

    /**
     * One event in one transaction. `claimed` is the inbox's answer; any refusal of the outbox, of the save or of the
     * inbox rolls everything back.
     */
    method Handle(event: Event, claimed: bool, refuses: nat -> bool, saveFails: bool,
                  inboxFails: bool) returns (r: Outcome, ghost ids: seq<string>)
      requires Valid()
      modifies this
      ensures Valid() && Keeps(old(sagas), sagas)
      ensures r.RolledBack? || !(claimed && event.typ in handlers) ==> sagas == old(sagas) && outbox == old(outbox)
      ensures failures == old(failures)
      ensures r.RolledBack? ==> Malformed(event) || saveFails || inboxFails || old(CannotEnqueue(event, refuses))
      ensures Malformed(event) ==> r.RolledBack?
      ensures claimed && event.typ in handlers && (saveFails || inboxFails) ==> r.RolledBack?
      ensures claimed && event.typ in handlers && !r.RolledBack? ==>
                (r.HandlerFailed? <==> old(HandledOf(event)).commands.Err?)
      ensures r.HandlerFailed? ==> outbox == old(outbox) && claimed && event.typ in handlers
      ensures claimed && event.typ in handlers && r.HandlerFailed? ==>
                var state := old(HandledOf(event)).state;
                sagas == old(sagas)[KeyOf(event) :=
                  state.(retryCount := state.retryCount + 1, version := state.version + 1)]
      ensures event.typ in handlers && KeyOf(event) !in old(sagas) ==>
                old(HandledOf(event)) == handlers[event.typ](
                  SagaState(KeyOf(event), event.correlationId, "RUNNING", "", 0, 0, map[], None), event)
      ensures claimed && event.typ in handlers && r.Done? ==>
                && old(HandledOf(event)).commands.Ok? && KeyOf(event) in sagas
                && sagas == old(sagas)[KeyOf(event) :=
                     Saved(old(HandledOf(event)).state.(effects := sagas[KeyOf(event)].effects))]
                && Identifies(ids, old(HandledOf(event)).commands.value, event)
                && SentExactly(old(EffectsOf(sagas, KeyOf(event))), sagas[KeyOf(event)].effects, old(outbox), outbox,
                               KeyOf(event), Names(ids))
                && SentInOrder(typ, old(HandledOf(event)).state, event, old(HandledOf(event)).commands.value, ids,
                               |ids|, old(outbox), outbox, sagas[KeyOf(event)].effects)
      ensures claimed && event.typ in handlers && r.Done?
              && (forall name :: name !in old(EffectsOf(sagas, KeyOf(event))))
              && NamesApart(old(HandledOf(event)).commands.value, event) ==>
                OneForOne(old(HandledOf(event)).commands.value, old(outbox), outbox)
    {
      hide EffectsOk, EffectsKeep, Inv, Keeps, Sends, Stamped;
      hide SentExactly, SentInOrder, Identifies, OneForOne, NamesApart;
      ids := [];
      SameKeeps(sagas);
      if event.id == "" || event.typ == "" { r := RolledBack("saga event identity is incomplete"); return; }
      var key := KeyOf(event);
      if key == "" { r := RolledBack("saga association key is required"); return; }
      if !claimed { r := Done; return; }
      LoadedOk(key);
      var loaded := LoadOrCreate(key);
      var state := if loaded.correlationId == "" then loaded.(correlationId := event.correlationId) else loaded;
      if event.typ !in handlers {
        r := if inboxFails then RolledBack("complete saga inbox") else Done;
        return;
      }
      var handled := handlers[event.typ](state, event);
      if handled.commands.Err? {
        if saveFails || inboxFails { r := RolledBack("save failed saga state"); return; }
        EffectsKeepSame(handled.state.effects);
        Save(key, handled.state.(retryCount := handled.state.retryCount + 1), outbox, failures);
        r := HandlerFailed(handled.commands.reason);
        return;
      }
      var sent;
      sent, ids := EnqueueAll(typ, handled.state, event, handled.commands.value, outbox, refuses, failures);
      if sent.None? { r := RolledBack("enqueue saga command"); return; }
      if saveFails || inboxFails { r := RolledBack("save saga state"); return; }
      AllNewIsOneForOne(typ, handled.state, event, handled.commands.value, ids, outbox, sent.value.1, sent.value.0);
      Save(key, handled.state.(effects := sent.value.0), sent.value.1, failures);
      r := Done;
    }

    /** The fence matches, and the effect is under way or has had this answer. */
    predicate Answerable(key: string, effectId: string, commandId: string, status: EffectStatus, saveFails: bool)
      reads this
    {
      && key != "" && effectId != "" && effectId in EffectsOf(sagas, key) && commandId == CommandId(typ, key, effectId)
      && (EffectsOf(sagas, key)[effectId].status == status
          || (EffectsOf(sagas, key)[effectId].status.Enqueued? && !saveFails))
    }

    /** Moves an effect under way to SUCCEEDED or FAILED; repeating the same answer changes nothing. */
    method UpdateEffect(key: string, effectId: string, commandId: string, status: EffectStatus,
                        saveFails: bool) returns (r: Result<()>)
      requires Valid() && !status.Enqueued?
      modifies this
      ensures Valid() && Keeps(old(sagas), sagas) && outbox == old(outbox)
      ensures r.Ok? <==> old(Answerable(key, effectId, commandId, status, saveFails))
      ensures r.Err? || old(EffectsOf(sagas, key))[effectId].status == status ==>
                sagas == old(sagas) && failures == old(failures)
      ensures r.Ok? && old(EffectsOf(sagas, key))[effectId].status != status ==>
                && key in old(sagas) && sagas == old(sagas)[key := Saved(old(sagas)[key].(effects :=
                     old(sagas)[key].effects[effectId := old(sagas)[key].effects[effectId].(status := status)]))]
                && Count(failures, key, effectId)
                   == old(Count(failures, key, effectId)) + if status.Failed? then 1 else 0
    {
      hide EffectsKeep, Inv, Keeps, Sends, Stamped;
      SameKeeps(sagas);
      if effectId == "" || commandId == "" || key == "" { return Err("effect and command identities are required"); }
      LoadedOk(key);
      var state := LoadOrCreate(key);
      if effectId !in state.effects { return Err("effect does not exist"); }
      var effect := state.effects[effectId];
      if effect.commandId != commandId { return Err("command fence mismatch"); }
      assert EffectOk(typ, key, effectId, effect, Sends(outbox, key, effectId), Count(failures, key, effectId));
      if effect.status == status { return Ok(()); }
      if !effect.status.Enqueued? { return Err("not awaiting acknowledgement"); }
      if saveFails { return Err("save acknowledged effect"); }
      ghost var failed :=
        if status.Failed? then failures[(key, effectId) := Count(failures, key, effectId) + 1] else failures;
      var after := state.effects[effectId := effect.(status := status)];
      SettleKeeps(typ, key, state.effects, outbox, failures, effectId, status, after, failed);
      Save(key, state.(effects := after), outbox, failed);
      return Ok(());
    }

    function CompensationAttempts(key: string): nat
      reads this
    {
      if key in sagas && sagas[key].compensation.Some? then sagas[key].compensation.value.attempts else 0
    }

    /** A step is being compensated for, whether or not it has ended. */
    predicate Compensates(key: string)
      reads this
    {
      key != "" && key in sagas && sagas[key].compensation.Some? && sagas[key].compensation.value.step != ""
    }

    /** Starts a compensation or another attempt of one, in a new saga if need be. */
    method StartCompensation(key: string, step: string, saveFails: bool) returns (r: Result<()>)
      requires Valid()
      modifies this
      ensures Valid() && Keeps(old(sagas), sagas) && outbox == old(outbox)
      ensures r.Ok? <==> key != "" && step != "" && !saveFails
      ensures r.Err? ==> sagas == old(sagas)
      ensures r.Ok? ==> sagas == old(sagas)[key := Saved(old(LoadOrCreate(key)).(status := "COMPENSATING",
                          compensation := Some(Compensation(step, "COMPENSATING",
                              old(CompensationAttempts(key)) + 1))))]
    {
      hide EffectsOk, EffectsKeep, Inv, Keeps, Sends, Stamped;
      SameKeeps(sagas);
      if step == "" || key == "" { return Err("compensation step is required"); }
      LoadedOk(key);
      var state := LoadOrCreate(key);
      var attempts := if state.compensation.Some? then state.compensation.value.attempts else 0;
      if saveFails { return Err("save compensation state"); }
      EffectsKeepSame(state.effects);
      Save(key,
           state.(compensation := Some(Compensation(step, "COMPENSATING", attempts + 1)), status := "COMPENSATING"),
           outbox, failures);
      return Ok(());
    }

    /** Completion or failure of an active compensation. */
    method UpdateCompensation(key: string, status: string, saveFails: bool) returns (r: Result<()>)
      requires Valid()
      modifies this
      ensures Valid() && Keeps(old(sagas), sagas) && outbox == old(outbox)
      ensures r.Ok? <==> old(Compensates(key)) && !saveFails
      ensures r.Err? ==> sagas == old(sagas)
      ensures r.Ok? ==> sagas == old(sagas)[key := Saved(old(sagas)[key].(status := status,
                          compensation := Some(old(sagas)[key].compensation.value.(status := status))))]
    {
      hide EffectsOk, EffectsKeep, Inv, Keeps, Sends, Stamped;
      SameKeeps(sagas);
      if key == "" { return Err("association key is required"); }
      LoadedOk(key);
      var state := LoadOrCreate(key);
      if state.compensation.None? || state.compensation.value.step == "" { return Err("compensation is not active"); }
      if saveFails { return Err("save compensation state"); }
      EffectsKeepSame(state.effects);
      Save(key, state.(compensation := Some(state.compensation.value.(status := status)), status := status), outbox,
           failures);
      return Ok(());
    }

    method Serve(op: Op)
      requires Valid()
      modifies this
      ensures Valid() && Keeps(old(sagas), sagas)
    {
      hide Inv, Keeps;
      match op
      case HandleEvent(event, claimed, refuses, saveFails, inboxFails) =>
        var _, _ := Handle(event, claimed, refuses, saveFails, inboxFails);
      case Answer(key, effectId, commandId, good, saveFails) =>
        var _ := UpdateEffect(key, effectId, commandId, if good then Succeeded else Failed, saveFails);
      case Compensate(key, step, saveFails) =>
        var _ := StartCompensation(key, step, saveFails);
      case EndCompensation(key, good, saveFails) =>
        var _ := UpdateCompensation(key, if good then "COMPLETED" else "FAILED", saveFails);
    }

    /**
     * Any run of calls, with any failures. Sagas stay, attempts and versions never fall, and an effect that has
     * succeeded stays as it is and is never sent again.
     */
    method Run(ops: seq<Op>)
      requires Valid()
      modifies this
      ensures Valid() && Keeps(old(sagas), sagas)
      ensures forall key, name | SucceededIn(old(sagas), key, name) ::
                && SucceededIn(sagas, key, name) && sagas[key].effects[name] == old(sagas)[key].effects[name]
                && Sends(outbox, key, name) == Sends(old(outbox), key, name)
    {
      hide Inv, Keeps, Sends;
      SameKeeps(sagas);
      for i := 0 to |ops|
        invariant Valid() && Keeps(old(sagas), sagas)
      {
        ghost var before := sagas;
        Serve(ops[i]);
        KeepsIsTransitive(old(sagas), before, sagas);
      }
      forall key, name | SucceededIn(old(sagas), key, name)
        ensures SucceededIn(sagas, key, name) && sagas[key].effects[name] == old(sagas)[key].effects[name]
        ensures Sends(outbox, key, name) == Sends(old(outbox), key, name)
      {
        NotSentAgain(typ, old(sagas), old(outbox), old(failures), old(saves), sagas, outbox, failures, saves, key,
                     name);
      }
    }
  }

  /** Asks for one effect `e` at every event. */
  function AskOnce(state: SagaState, event: Event): Handled {
    Handled(state, Ok([Command("", "e", "t", "", "", "", "")]))
  }

  lemma AskedOnce(ids: seq<string>, event: Event)
    requires Identifies(ids, [Command("", "e", "t", "", "", "", "")], event)
    ensures Names(ids) == {"e"}
  {
    assert IdFor(ids[0], Command("", "e", "t", "", "", "", ""), event, 0);
  }

  /** An event of saga `k` under the handler above. */
  method AskAgain(m: SagaManager, id: string)
    requires m.Valid() && m.handlers == map["go" := AskOnce] && id != ""
    modifies m
    ensures m.Valid() && m.failures == old(m.failures)
    ensures SentIfDue(old(EffectsOf(m.sagas, "k")), EffectsOf(m.sagas, "k"), old(Sends(m.outbox, "k", "e")),
        Sends(m.outbox, "k", "e"), "e",
                      IdleIn(old(EffectsOf(m.sagas, "k")), "e"))
  {
    hide Inv, Keeps, Sends, SentIfDue;
    var event := Event(id, "go", "k", "", "");
    var none := (i: nat) => false;
    var r, ids := m.Handle(event, true, none, false, false);
    assert r.Done?;
    AskedOnce(ids, event);
    assert SentExactly(old(EffectsOf(m.sagas, "k")), m.sagas["k"].effects, old(m.outbox), m.outbox, "k", {"e"});
  }

  /**
   * One failure and a second attempt are enough: the first attempt's acknowledgement, which carries the id of its
   * command, is taken for the second's.
   */
  method StaleAcknowledgementPasses() returns (taken: Result<()>)
    ensures taken.Ok?
  {
    hide Inv, Keeps, Sends;
    var m := new SagaManager("s", map["go" := AskOnce]);
    NoneSent();
    AskAgain(m, "1");
    var first := CommandId("s", "k", "e");
    ghost var i := SentUnder(m.typ, m.sagas, m.outbox, m.failures, m.saves, "k", "e");
    assert m.outbox[i].command.id == first;
    var failed := m.UpdateEffect("k", "e", first, Failed, false);
    AskAgain(m, "2");
    assert m.sagas["k"].effects["e"].status.Enqueued? && Sends(m.outbox, "k", "e") == 2;
    taken := m.UpdateEffect("k", "e", first, Succeeded, false);
  }

  /** A command that was sent, by its position in the outbox. */
  lemma SentUnder(typ: string, sagas: map<string, SagaState>, outbox: seq<Sent>, failures: map<(string, string), nat>,
                  saves: map<string, nat>, key: string, name: string) returns (i: nat)
    requires Inv(typ, sagas, outbox, failures, saves) && Sends(outbox, key, name) > 0
    ensures IsSend(outbox, i, key, name) && outbox[i].command.id == CommandId(typ, key, name)
  {
    hide Sends;
    SendsAtLeast(outbox, key, name);
    i :| IsSend(outbox, i, key, name);
  }

  lemma NoneSent()
    ensures Sends([], "k", "e") == 0
  {
  }

  lemma SameKeeps(sagas: map<string, SagaState>)
    ensures Keeps(sagas, sagas)
  {
  }

  lemma EffectsKeepSame(effects: map<string, Effect>)
    ensures EffectsKeep(effects, effects)
  {
  }
}
