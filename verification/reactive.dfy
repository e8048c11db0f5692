/** `SevenReactiveVariable`: a value cell with a subscriber list. The setter
    stores without notifying anyone, and `subscribe` hands out an
    `unsubscribe` handle but never records the subscriber. */
module Reactive {
  import opened Values

  /** Subscribers are host callbacks; only their identity matters here. */
  type Subscriber = nat

  datatype ReactiveVar = ReactiveVar(current: Value, subscribers: seq<Subscriber>)

  /** The `unsubscribe` handle returned by `subscribe`: it remembers the
      callback it was created for. */
  datatype Subscription = Subscription(subscriber: Subscriber)

  /** The constructor: `initValue` (or `undefined`) and no subscribers. */
  function New(init: Value): (v: ReactiveVar)
    ensures Read(v) == init && v.subscribers == []
  {
    ReactiveVar(init, [])
  }

  /** The `value` getter. */
  function Read(v: ReactiveVar): Value {
    v.current
  }

  /** The `value` setter: stores the new value and notifies no one. */
  function Write(v: ReactiveVar, x: Value): (v': ReactiveVar)
    ensures Read(v') == x
    ensures v'.subscribers == v.subscribers
  {
    v.(current := x)
  }

  /** `subscribe`: returns a handle for `s`; the subscriber list is left as it was. */
  function Subscribe(v: ReactiveVar, s: Subscriber): (r: (ReactiveVar, Subscription))
    ensures r.0 == v
    ensures r.1.subscriber == s
  {
    (v, Subscription(s))
  }

  /** `Array.prototype.indexOf`: the first index holding `s`, or -1. */
  function IndexOf(subs: seq<Subscriber>, s: Subscriber): (i: int)
    ensures -1 <= i < |subs|
    ensures i == -1 <==> s !in subs
    ensures 0 <= i ==> subs[i] == s && forall k :: 0 <= k < i ==> subs[k] != s
  {
    if |subs| == 0 then -1
    else if subs[0] == s then 0
    else
      var i := IndexOf(subs[1..], s);
      if i == -1 then -1 else i + 1
  }

  /** `unsubscribe()`: splices out the first occurrence of the callback, if any. */
  function Unsubscribe(v: ReactiveVar, h: Subscription): (v': ReactiveVar)
    ensures Read(v') == Read(v)
    ensures h.subscriber !in v.subscribers ==> v' == v
    ensures h.subscriber in v.subscribers ==>
      exists i :: 0 <= i < |v.subscribers| && v.subscribers[i] == h.subscriber &&
        (forall k :: 0 <= k < i ==> v.subscribers[k] != h.subscriber) &&
        v'.subscribers == v.subscribers[..i] + v.subscribers[i + 1..]
  {
    var i := IndexOf(v.subscribers, h.subscriber);
    if i != -1 then v.(subscribers := v.subscribers[..i] + v.subscribers[i + 1..]) else v
  }

  /** A host action on one reactive variable. */
  datatype Action = WriteValue(x: Value) | SubscribeWith(s: Subscriber) | UnsubscribeWith(h: Subscription)

  function Apply(v: ReactiveVar, a: Action): ReactiveVar {
    match a
    case WriteValue(x) => Write(v, x)
    case SubscribeWith(s) => Subscribe(v, s).0
    case UnsubscribeWith(h) => Unsubscribe(v, h)
  }

  function ApplyAll(v: ReactiveVar, actions: seq<Action>): ReactiveVar
    decreases |actions|
  {
    if |actions| == 0 then v else ApplyAll(Apply(v, actions[0]), actions[1..])
  }

  /** Whatever a host does to a reactive variable created by the constructor,
      its subscriber list stays empty: no callback is ever registered, so no
      callback could ever be notified. */
  lemma {:induction false} SubscribersStayEmpty(init: Value, actions: seq<Action>)
    ensures ApplyAll(New(init), actions).subscribers == []
  {
    NoSubscriberEverAdded(New(init), actions);
  }

  lemma {:induction false} NoSubscriberEverAdded(v: ReactiveVar, actions: seq<Action>)
    requires v.subscribers == []
    ensures ApplyAll(v, actions).subscribers == []
    decreases |actions|
  {
    if |actions| > 0 {
      var v1 := Apply(v, actions[0]);
      assert v1.subscribers == [];
      NoSubscriberEverAdded(v1, actions[1..]);
    }
  }

  /** The value reads back as the last value written, whatever subscribe and
      unsubscribe calls came after it. */
  lemma {:induction false} ReadsLastWrite(v: ReactiveVar, x: Value, rest: seq<Action>)
    requires forall k :: 0 <= k < |rest| ==> !rest[k].WriteValue?
    ensures Read(ApplyAll(v, [WriteValue(x)] + rest)) == x
  {
    assert ([WriteValue(x)] + rest)[1..] == rest;
    KeepsValue(Write(v, x), rest);
  }

  lemma {:induction false} KeepsValue(v: ReactiveVar, rest: seq<Action>)
    requires forall k :: 0 <= k < |rest| ==> !rest[k].WriteValue?
    ensures Read(ApplyAll(v, rest)) == Read(v)
    decreases |rest|
  {
    if |rest| > 0 {
      assert !rest[0].WriteValue?;
      KeepsValue(Apply(v, rest[0]), rest[1..]);
    }
  }

  /** The handle returned by `subscribe` removes nothing, and calling it any
      number of times leaves the variable exactly as it was. */
  lemma {:induction false} UnsubscribeIsNoOp(init: Value, before: seq<Action>, s: Subscriber, n: nat)
    ensures
      var v := ApplyAll(New(init), before);
      var (v1, h) := Subscribe(v, s);
      ApplyAll(v1, seq(n, _ => UnsubscribeWith(h))) == v
  {
    var v := ApplyAll(New(init), before);
    SubscribersStayEmpty(init, before);
    var (v1, h) := Subscribe(v, s);
    RepeatedUnsubscribe(v1, h, n);
  }

  lemma {:induction false} RepeatedUnsubscribe(v: ReactiveVar, h: Subscription, n: nat)
    requires h.subscriber !in v.subscribers
    ensures ApplyAll(v, seq(n, _ => UnsubscribeWith(h))) == v
    decreases n
  {
    if n > 0 {
      assert seq(n, _ => UnsubscribeWith(h))[1..] == seq(n - 1, _ => UnsubscribeWith(h));
      RepeatedUnsubscribe(v, h, n - 1);
    }
  }
}
