/**
 The shared clipboard listener: one master thread serves all subscribers. It is
 started by the first subscription, restarted when found dead, and stopped when
 the last subscriber leaves. Threads may also die on their own at any time.
 */
module ClipboardListener {
  import opened Strings

  datatype StartResult = Started | StartFailed

  /** `live` are the master threads now running; `next` is the identity of the next thread. */
  datatype State = State(subscribers: set<string>, handle: Option<nat>, live: set<nat>, next: nat)

  datatype Op =
    | Subscribe(name: string, start: StartResult)
    | Unsubscribe(name: string)
    | ThreadDies(id: nat)

  function CleanedUp(s: State): State {
    if s.handle.Some? && s.handle.value !in s.live then s.(handle := None) else s
  }

  function Apply(s: State, op: Op): State {
    match op
    case Subscribe(name, start) =>
      var t := CleanedUp(s.(subscribers := s.subscribers + {name}));
      if t.handle.Some? then t
      else if start.StartFailed? then t.(next := t.next + 1)
      else t.(handle := Some(t.next), live := t.live + {t.next}, next := t.next + 1)
    case Unsubscribe(name) =>
      var t := s.(subscribers := s.subscribers - {name});
      if t.subscribers == {} && t.handle.Some?
      then t.(handle := None, live := t.live - {t.handle.value})
      else t
    case ThreadDies(id) => s.(live := s.live - {id})
  }

  function Run(s: State, ops: seq<Op>): State {
    if ops == [] then s else Apply(Run(s, ops[..|ops| - 1]), ops[|ops| - 1])
  }

  const START: State := State({}, None, {}, 0)

  /** A running master is the one whose handle is kept, and a kept handle has a subscriber. */
  ghost predicate Inv(s: State) {
    && s.live <= (if s.handle.Some? then {s.handle.value} else {})
    && (s.handle.Some? ==> s.subscribers != {} && s.handle.value < s.next)
  }

  lemma {:induction false} RunKeepsInv(ops: seq<Op>)
    ensures Inv(Run(START, ops))
  {
    if ops != [] {
      RunKeepsInv(ops[..|ops| - 1]);
    }
  }

  /** At every moment of every run at most one master thread runs, and none without subscribers. */
  lemma SingleListener(ops: seq<Op>)
    ensures var s := Run(START, ops);
            && |s.live| <= 1
            && (s.handle.Some? ==> s.subscribers != {})
            && (s.subscribers == {} ==> s.live == {} && s.handle.None?)
  {
    RunKeepsInv(ops);
    var s := Run(START, ops);
    if s.handle.Some? {
      SubsetOfOne(s.live, s.handle.value);
    }
  }

  lemma SubsetOfOne(live: set<nat>, id: nat)
    requires live <= {id}
    ensures |live| <= 1
  {
    if live != {} {
      assert live == {id};
    }
  }

  /** A subscription that reports success leaves a running master behind it. */
  lemma SubscribeStartsListener(ops: seq<Op>, name: string, start: StartResult)
    ensures var s := Run(START, ops);
            var t := Apply(s, Subscribe(name, start));
            (start.Started? || (s.handle.Some? && s.handle.value in s.live)) <==>
              t.handle.Some? && t.handle.value in t.live
  {
  }

  /** Some subscription under this name has not been taken back since. */
  ghost predicate Subscribed(ops: seq<Op>, name: string) {
    exists i :: 0 <= i < |ops| && ops[i].Subscribe? && ops[i].name == name &&
                forall j :: i < j < |ops| ==> ops[j] != Unsubscribe(name)
  }

  lemma SubscribedStep(ops: seq<Op>, op: Op, name: string)
    ensures Subscribed(ops + [op], name) <==>
            (op.Subscribe? && op.name == name) || (Subscribed(ops, name) && op != Unsubscribe(name))
  {
    var all := ops + [op];
    assert forall i :: 0 <= i < |ops| ==> all[i] == ops[i];
    assert all[|ops|] == op;
    if Subscribed(ops, name) && op != Unsubscribe(name) {
      var i :| 0 <= i < |ops| && ops[i].Subscribe? && ops[i].name == name &&
               forall j :: i < j < |ops| ==> ops[j] != Unsubscribe(name);
      assert all[i].Subscribe? && forall j :: i < j < |all| ==> all[j] != Unsubscribe(name);
    }
  }

  /** In every run the subscribers are exactly those who subscribed and have not left since. */
  lemma {:induction false} SubscribersAreExact(ops: seq<Op>, name: string)
    ensures name in Run(START, ops).subscribers <==> Subscribed(ops, name)
  {
    if ops != [] {
      var n := |ops| - 1;
      SubscribersAreExact(ops[..n], name);
      SubscribedStep(ops[..n], ops[n], name);
      assert ops == ops[..n] + [ops[n]];
    }
  }

  /** While another subscriber remains, leaving changes nothing about the listener; the last one to leave stops it. */
  lemma LeavingStopsOnlyLast(ops: seq<Op>, name: string)
    ensures var s := Run(START, ops);
            var t := Apply(s, Unsubscribe(name));
            && t.subscribers == s.subscribers - {name}
            && if s.subscribers <= {name} then t.handle.None? && t.live == {}
               else t.handle == s.handle && t.live == s.live
  {
    RunKeepsInv(ops);
  }

  class Listener {
    var subscribers: set<string>
    var handle: Option<nat>
    ghost var live: set<nat>
    ghost var next: nat

    ghost function View(): State
      reads this
    {
      State(subscribers, handle, live, next)
    }

    constructor ()
      ensures View() == START
    {
      subscribers, handle, live, next := {}, None, {}, 0;
    }

    method CleanupStaleListener(finished: bool)
      requires handle.Some? ==> finished == (handle.value !in live)
      modifies this`handle
      ensures View() == CleanedUp(old(View()))
    {
      if handle.None? || !finished {
        return;
      }
      handle := None;
    }

    /** `finished` is the handle's own report; `start` and `id` come from the spawned thread. */
    method DoSubscribe(name: string, finished: bool, start: StartResult, id: nat) returns (ok: bool)
      requires (handle.Some? ==> finished == (handle.value !in live)) && id == next
      modifies this
      ensures View() == Apply(old(View()), Subscribe(name, start))
      ensures ok <==> handle.Some?
    {
      subscribers := subscribers + {name};
      CleanupStaleListener(finished);
      if handle.None? {
        next := next + 1;
        if start.StartFailed? {
          return false;
        }
        live := live + {id};
        handle := Some(id);
      }
      return true;
    }

    method DoUnsubscribe(name: string)
      modifies this
      ensures View() == Apply(old(View()), Unsubscribe(name))
    {
      subscribers := subscribers - {name};
      if subscribers == {} {
        if handle.Some? {
          live := live - {handle.value};
          handle := None;
        }
      }
    }
  }
}
