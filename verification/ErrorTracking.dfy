/**
 Error counts and recent messages per error type and key. The history of an entry is
 what was recorded since it was last cleared or wiped; it exists for the proofs only.
 Instants and durations are natural numbers.
 */
module ErrorTracking {

  import opened Common
  import opened RecentMessages

  type ErrorType = nat
  type Key = nat
  type Message = string

  datatype ErrorState = ErrorState(errors: seq<Message>, count: nat, lastAt: nat)

  /** Overrides of the tracker's own threshold and duration. */
  datatype TypeState = TypeState(stateByKey: map<Key, ErrorState>, skipThreshold: Option<nat>, skipDuration: Option<nat>)

  datatype Recorded = Recorded(message: Message, at: nat)

  /** Zero if the earlier instant is in fact later. */
  function DurationSince(now: nat, earlier: nat): nat {
    if earlier <= now then now - earlier else 0
  }

  function Lookup(types: map<ErrorType, TypeState>, t: ErrorType, k: Key): Option<ErrorState> {
    if t in types && k in types[t].stateByKey then Some(types[t].stateByKey[k]) else None
  }

  function Messages(history: seq<Recorded>): (r: seq<Message>)
    ensures |r| == |history| && forall i :: 0 <= i < |r| ==> r[i] == history[i].message
  {
    seq(|history|, i requires 0 <= i < |history| => history[i].message)
  }

  /** What is kept of a history. */
  function Summary(history: seq<Recorded>, keep: nat): Option<ErrorState> {
    if history == [] then None
    else Some(ErrorState(LastK(Distinct(Messages(history)), keep), |history|, history[|history| - 1].at))
  }

  type Histories = map<(ErrorType, Key), seq<Recorded>>

  function HistoryOf(histories: Histories, t: ErrorType, k: Key): seq<Recorded> {
    if (t, k) in histories then histories[(t, k)] else []
  }

  ghost predicate Tracks(types: map<ErrorType, TypeState>, histories: Histories, keep: nat, t: ErrorType, k: Key) {
    Lookup(types, t, k) == Summary(HistoryOf(histories, t, k), keep)
  }

  ghost predicate TracksAll(types: map<ErrorType, TypeState>, histories: Histories, keep: nat) {
    forall t, k :: Tracks(types, histories, keep, t, k)
  }

  function OfType(types: map<ErrorType, TypeState>, t: ErrorType): TypeState {
    if t in types then types[t] else TypeState(map[], None, None)
  }

  function SetState(types: map<ErrorType, TypeState>, t: ErrorType, k: Key, state: ErrorState): map<ErrorType, TypeState> {
    types[t := OfType(types, t).(stateByKey := OfType(types, t).stateByKey[k := state])]
  }

  lemma {:induction false} SetStateTracks(types: map<ErrorType, TypeState>, histories: Histories, keep: nat, t: ErrorType, k: Key,
                                          state: ErrorState, history: seq<Recorded>)
    requires TracksAll(types, histories, keep) && Some(state) == Summary(history, keep)
    ensures TracksAll(SetState(types, t, k, state), histories[(t, k) := history], keep)
  {
    var types', histories' := SetState(types, t, k, state), histories[(t, k) := history];
    forall u, l ensures Tracks(types', histories', keep, u, l) {
      assert Tracks(types, histories, keep, u, l);
    }
  }

  /** An entry after one more error. */
  function NextState(known: Option<ErrorState>, message: Message, now: nat, keep: nat): ErrorState {
    var state := if known.Some? then known.value else ErrorState([], 0, now);
    ErrorState(Remember(state.errors, message, keep), state.count + 1, now)
  }

  lemma {:induction false} SummaryStep(history: seq<Recorded>, r: Recorded, keep: nat)
    ensures Summary(history + [r], keep) == Some(NextState(Summary(history, keep), r.message, r.at, keep))
  {
    RememberRefines(Messages(history), r.message, keep);
    assert Messages(history + [r]) == Messages(history) + [r.message];
    if history == [] {
      assert Messages(history) == [];
      assert LastK(Distinct(Messages(history)), keep) == [];
    }
  }

  class Tracker {
    var errorsByType: map<ErrorType, TypeState>
    var skipThreshold: nat
    var skipDuration: nat
    var uniqueMessagesToKeep: nat
    var keepDuration: nat
    var lastLog: nat
    var logInterval: nat
    ghost var histories: Histories

    ghost function History(t: ErrorType, k: Key): seq<Recorded>
      reads this
    {
      HistoryOf(histories, t, k)
    }

    ghost predicate Valid()
      reads this
    {
      TracksAll(errorsByType, histories, uniqueMessagesToKeep)
    }

    function Threshold(t: ErrorType): nat
      reads this
    {
      if t in errorsByType && errorsByType[t].skipThreshold.Some? then errorsByType[t].skipThreshold.value else skipThreshold
    }

    function Duration(t: ErrorType): nat
      reads this
    {
      if t in errorsByType && errorsByType[t].skipDuration.Some? then errorsByType[t].skipDuration.value else skipDuration
    }

    /** No errors so far; types may already have thresholds of their own. */
    constructor (thresholds: map<ErrorType, nat>, skipThreshold: nat, skipDuration: nat, keep: nat, keepDuration: nat,
                 logInterval: nat, now: nat)
      ensures Valid() && histories == map[] && uniqueMessagesToKeep == keep
      ensures forall t :: Threshold(t) == if t in thresholds then thresholds[t] else skipThreshold
      ensures forall t :: Duration(t) == skipDuration
      ensures this.keepDuration == keepDuration && this.logInterval == logInterval && lastLog == now
    {
      errorsByType := map t | t in thresholds :: TypeState(map[], Some(thresholds[t]), None);
      this.skipThreshold, this.skipDuration := skipThreshold, skipDuration;
      uniqueMessagesToKeep, this.keepDuration := keep, keepDuration;
      lastLog, this.logInterval := now, logInterval;
      histories := map[];
    }

    /** Some exactly if enough errors were recorded since the last reset, the last one recently. */
    method HadTooManyErrors(t: ErrorType, k: Key, now: nat) returns (r: Option<ErrorState>)
      requires Valid()
      ensures r.Some? <==> var h := History(t, k);
                           h != [] && |h| >= Threshold(t) && 0 < Duration(t) && now < h[|h| - 1].at + Duration(t)
      ensures r.Some? ==> r == Summary(History(t, k), uniqueMessagesToKeep)
    {
      assert Tracks(errorsByType, histories, uniqueMessagesToKeep, t, k);
      if t !in errorsByType || k !in errorsByType[t].stateByKey {
        return None;
      }
      var state := errorsByType[t].stateByKey[k];
      if state.count >= Threshold(t) && DurationSince(now, state.lastAt) < Duration(t) {
        return Some(state);
      }
      return None;
    }

    method Record(t: ErrorType, k: Key, message: Message, now: nat)
      requires Valid()
      modifies this`errorsByType, this`histories
      ensures Valid()
      ensures histories == old(histories)[(t, k) := old(History(t, k)) + [Recorded(message, now)]]
      ensures forall t :: Threshold(t) == old(Threshold(t)) && Duration(t) == old(Duration(t))
    {
      assert Tracks(errorsByType, histories, uniqueMessagesToKeep, t, k);
      var known := Lookup(errorsByType, t, k);
      var state := if known.Some? then known.value else ErrorState([], 0, now);
      var errors := RemoveFirst(state.errors, message);
      errors := errors + [message];
      if |errors| > uniqueMessagesToKeep {
        errors := errors[1..];
      }
      state := ErrorState(errors, state.count + 1, now);
      assert state == NextState(known, message, now, uniqueMessagesToKeep);
      ghost var history := History(t, k) + [Recorded(message, now)];
      SummaryStep(History(t, k), Recorded(message, now), uniqueMessagesToKeep);
      SetStateTracks(errorsByType, histories, uniqueMessagesToKeep, t, k, state, history);
      errorsByType := SetState(errorsByType, t, k, state);
      histories := histories[(t, k) := history];
    }

    method Clear(t: ErrorType, k: Key)
      requires Valid()
      modifies this`errorsByType, this`histories
      ensures Valid() && histories == old(histories) - {(t, k)}
      ensures forall t :: Threshold(t) == old(Threshold(t)) && Duration(t) == old(Duration(t))
    {
      if t in errorsByType {
        errorsByType := errorsByType[t := errorsByType[t].(stateByKey := errorsByType[t].stateByKey - {k})];
      }
      histories := histories - {(t, k)};
      forall u, l ensures Tracks(errorsByType, histories, uniqueMessagesToKeep, u, l) {
        assert old(Tracks(errorsByType, histories, uniqueMessagesToKeep, u, l));
      }
    }

    ghost predicate Fresh(now: nat, h: seq<Recorded>)
      reads this
    {
      h != [] && 0 < keepDuration && now < h[|h| - 1].at + keepDuration
    }

    /** Forgets every entry whose last error is too long ago. */
    method WipeOld(now: nat)
      requires Valid()
      modifies this`errorsByType, this`histories
      ensures Valid()
      ensures forall t, k :: History(t, k) == if Fresh(now, old(History(t, k))) then old(History(t, k)) else []
      ensures forall t :: Threshold(t) == old(Threshold(t)) && Duration(t) == old(Duration(t))
    {
      errorsByType := map t | t in errorsByType :: errorsByType[t].(stateByKey := Retained(errorsByType[t].stateByKey, now));
      histories := map e | e in histories && Fresh(now, histories[e]) :: histories[e];
      forall u, l ensures Tracks(errorsByType, histories, uniqueMessagesToKeep, u, l) {
        assert old(Tracks(errorsByType, histories, uniqueMessagesToKeep, u, l));
      }
    }

    function Retained(states: map<Key, ErrorState>, now: nat): map<Key, ErrorState>
      reads this`keepDuration
    {
      map k | k in states && DurationSince(now, states[k].lastAt) < keepDuration :: states[k]
    }

    /** Wipes old entries, once per log interval. */
    method Update(now: nat)
      requires Valid()
      modifies this`errorsByType, this`histories, this`lastLog
      ensures Valid()
      ensures 0 < logInterval && now < old(lastLog) + logInterval ==> histories == old(histories) && lastLog == old(lastLog)
      ensures logInterval == 0 || now >= old(lastLog) + logInterval ==>
                lastLog == now && forall t, k :: History(t, k) == if Fresh(now, old(History(t, k))) then old(History(t, k)) else []
      ensures forall t :: Threshold(t) == old(Threshold(t)) && Duration(t) == old(Duration(t))
    {
      if DurationSince(now, lastLog) < logInterval {
        return;
      }
      lastLog := now;
      WipeOld(now);
    }
  }
}
