// The MQTT demo's movement log: each movement message pushes the local time
// of its arrival onto the front of a queue, and the queue keeps at most six
// entries by dropping its oldest one.

module MovementQueue {
  import opened Wrappers
  import opened Calendar
  import opened TimeUtils
  import opened Decimal

  const MaxEvents: nat := 6

  /** The queue after `push_front(e)` followed, when it then holds more than
      six entries, by one `pop_back()`. */
  function Pushed(events: seq<string>, e: string): seq<string> {
    var grown := [e] + events;
    if |grown| > MaxEvents then grown[..|grown| - 1] else grown
  }

  /** A push puts the new entry first and keeps the old ones behind it in
      order; exactly one old entry, the oldest, is dropped when the queue was
      full. */
  lemma PushedShape(events: seq<string>, e: string)
    ensures var r := Pushed(events, e);
      |r| == (if |events| >= MaxEvents then |events| else |events| + 1)
      && r[0] == e
      && r[1..] == events[..|r| - 1]
      && (|events| < MaxEvents ==> r[1..] == events)
  {
  }

  /** A queue of at most six stays at most six. */
  lemma PushedBound(events: seq<string>, e: string)
    requires |events| <= MaxEvents
    ensures |Pushed(events, e)| <= MaxEvents
    ensures |Pushed(events, e)| == if |events| < MaxEvents then |events| + 1 else MaxEvents
  {
  }

  function Reverse(s: seq<string>): (r: seq<string>)
    ensures |r| == |s|
  {
    if s == [] then [] else Reverse(s[1..]) + [s[0]]
  }

  lemma {:induction false} ReverseAt(s: seq<string>, i: nat)
    requires i < |s|
    ensures Reverse(s)[i] == s[|s| - 1 - i]
    decreases |s|
  {
    if i < |s| - 1 {
      ReverseAt(s[1..], i);
    }
  }

  /** The queue after pushing each of `es` in turn. */
  function PushedAll(events: seq<string>, es: seq<string>): seq<string>
    decreases |es|
  {
    if es == [] then events else PushedAll(Pushed(events, es[0]), es[1..])
  }

  /** Cutting `b` before appending it to `a` does not change a shorter
      prefix of the whole. */
  lemma PrefixOfCut(a: seq<string>, b: seq<string>, m: nat, n: nat)
    requires m <= |b| && n <= |a| + m
    ensures (a + b[..m])[..n] == (a + b)[..n]
  {
    assert forall i :: 0 <= i < n ==> (a + b[..m])[i] == (a + b)[i];
  }

  /** Pushing a batch keeps the six most recent entries, newest first:
      the batch reversed, then the old entries, cut to six. */
  lemma {:induction false} PushedAllKeepsNewest(events: seq<string>, es: seq<string>)
    requires |events| <= MaxEvents
    ensures PushedAll(events, es) == (Reverse(es) + events)[..Min(|es| + |events|, MaxEvents)]
    decreases |es|
  {
    if es != [] {
      var next := Pushed(events, es[0]);
      PushedBound(events, es[0]);
      PushedAllKeepsNewest(next, es[1..]);
      var r := Reverse(es[1..]);
      var grown := [es[0]] + events;
      assert next == grown[..|next|];
      assert Reverse(es) + events == r + grown;
      var n := Min(|es| + |events|, MaxEvents);
      assert Min(|es| - 1 + |next|, MaxEvents) == n;
      PrefixOfCut(r, grown, |next|, n);
    }
  }

  /** Seven movements from an empty queue leave the last six, newest first. */
  lemma SevenPushesKeepSix(a: string, b: string, c: string, d: string, e: string, f: string, g: string)
    ensures PushedAll([], [a, b, c, d, e, f, g]) == [g, f, e, d, c, b]
  {
    var es := [a, b, c, d, e, f, g];
    PushedAllKeepsNewest([], es);
    forall i | 0 <= i < 6
      ensures Reverse(es)[i] == es[6 - i]
    {
      ReverseAt(es, i);
    }
  }

  /** The shared movement queue (a `VecDeque<String>` behind a mutex). */
  class MovementLog {
    var events: seq<string>

    predicate Valid()
      reads this
    {
      |events| <= MaxEvents
    }

    constructor()
      ensures events == [] && Valid()
    {
      events := [];
    }

    method Push(e: string)
      modifies this
      ensures events == Pushed(old(events), e)
      ensures old(Valid()) ==> Valid()
    {
      events := [e] + events;
      if |events| > MaxEvents {
        events := events[..|events| - 1];
      }
    }
  }

  /** The entry a movement at UTC second `utc` adds: its local time of day. */
  function MovementStamp(utc: nat): string {
    var local := UtcToBerlin(utc);
    FormatTime(local.hour, local.minute, local.second)
  }

  /** A stamp is "HH:MM:SS" of the local time, and its minutes and seconds are
      those of the UTC instant (the offset is whole hours). */
  lemma MovementStampShape(utc: nat)
    ensures var s := MovementStamp(utc);
      |s| == 8 && s[2] == ':' && s[5] == ':'
      && ParseNat(s[0..2]) == UtcToBerlin(utc).hour
      && ParseNat(s[3..5]) == FromTimestamp(utc).minute
      && ParseNat(s[6..8]) == FromTimestamp(utc).second
  {
    var local := UtcToBerlin(utc);
    FormatTimeLayout(local.hour, local.minute, local.second);
    UtcToBerlinKeepsMinuteAndSecond(utc);
  }

  /** `handle_movement_event`: the clock reading is a parameter. */
  method HandleMovementEvent(log: MovementLog, utc: nat)
    modifies log
    ensures log.events == Pushed(old(log.events), MovementStamp(utc))
    ensures old(log.Valid()) ==> log.Valid()
  {
    var local := UtcToBerlin(utc);
    var formatted := FormatTime(local.hour, local.minute, local.second);
    log.Push(formatted);
  }
}
