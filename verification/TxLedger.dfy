/** What the session counters and the sets of numbers and tokens say about the events of a run. */
module TxLedger {
  import opened TxSession
  import opened Wrappers

  /** A token stored by a start was never stored before. */
  lemma {:induction false} TokensStoredSoFar(states: seq<State>, events: seq<Event>, k: nat, j: nat)
    requires IsRun(states, events) && j <= k < |states|
    ensures states[j].active.Some? && states[j].active.value.Alsa? ==>
        states[j].active.value.token <= states[k].lastToken
  {
    if j < k {
      TokensStoredSoFar(states, events, k - 1, j);
    } else {
      RunKeepsInvariant(states, events, k);
    }
  }

  lemma StartedTokenIsNew(states: seq<State>, events: seq<Event>, k: nat, j: nat)
    requires IsRun(states, events) && j <= k < |events| && events[k] == StartAlsa && states[k].active == None
    ensures states[k + 1].active != states[j].active
  {
    TokensStoredSoFar(states, events, k, j);
  }

  /** The event takes an ALSA session with this token out. */
  predicate Cancels(s: State, e: Event, token: nat) {
    (e == StopAlsa || e == Shutdown) && s.active == Some(Alsa(token))
  }

  /** A token is cancelled exactly if a stop or the shutdown found its session stored. */
  lemma {:induction false} CancelledIff(states: seq<State>, events: seq<Event>, k: nat, token: nat)
    requires IsRun(states, events) && k < |states|
    ensures token in states[k].cancelled <==> exists j :: 0 <= j < k && Cancels(states[j], events[j], token)
  {
    if k > 0 {
      CancelledIff(states, events, k - 1, token);
      if Cancels(states[k - 1], events[k - 1], token) {
        assert token in states[k].cancelled;
      }
    }
  }

  /** Numbers drawn by different handlers differ. */
  lemma {:induction false} DrawnNumbersGrow(states: seq<State>, events: seq<Event>, j: nat, k: nat)
    requires IsRun(states, events) && j <= k < |states|
    ensures states[j].lastId <= states[k].lastId
    ensures j < k && events[j] == TakeId ==> states[j].lastId < states[j + 1].lastId <= states[k].lastId
    decreases k
  {
    if j < k {
      DrawnNumbersGrow(states, events, j, k - 1);
    }
  }

  /** A number is finished exactly if its handler finished it, and open exactly if it got in and did not
      finish yet. */
  lemma {:induction false} FinishedIff(states: seq<State>, events: seq<Event>, k: nat, id: nat)
    requires IsRun(states, events) && k < |states|
    ensures id in states[k].finished <==> exists j :: 0 <= j < k && events[j] == FinishBrowser(id)
    ensures id in states[k].open <==>
      (exists j :: 0 <= j < k && Opens(states[j], events[j], id)) && id !in states[k].finished
  {
    if k > 0 {
      FinishedIff(states, events, k - 1, id);
      RunKeepsInvariant(states, events, k - 1);
      if events[k - 1] == FinishBrowser(id) || Opens(states[k - 1], events[k - 1], id) {
        assert id in states[k].finished || id in states[k].open;
      }
    }
  }

  predicate Opens(s: State, e: Event, id: nat) {
    e == OpenBrowser(id) && !(s.active.Some? && s.active.value.Alsa?)
  }

  /** The event drew this number: the next one after the last. */
  predicate Draws(s: State, e: Event, id: nat) {
    e == TakeId && id == s.lastId + 1
  }

  /** A number waits exactly if it was drawn and its handler has not come to the lock with it yet. */
  lemma {:induction false} WaitingIff(states: seq<State>, events: seq<Event>, k: nat, id: nat)
    requires IsRun(states, events) && k < |states|
    ensures id in states[k].waiting <==>
      && (exists j :: 0 <= j < k && Draws(states[j], events[j], id))
      && forall j :: 0 <= j < k ==> events[j] != OpenBrowser(id)
    ensures (exists j :: 0 <= j < k && events[j] == OpenBrowser(id)) ==> id <= states[k].lastId
  {
    if k > 0 {
      WaitingIff(states, events, k - 1, id);
      RunKeepsInvariant(states, events, k - 1);
      assert Draws(states[k - 1], events[k - 1], id) || events[k - 1] == OpenBrowser(id) ==> id <= states[k].lastId;
    }
  }

  /** The draws among the first k events. */
  function DrawsBefore(events: seq<Event>, k: nat): set<nat>
    requires k <= |events|
  {
    set j: nat | j < k && events[j] == TakeId
  }

  lemma OneMoreDraw(events: seq<Event>, k: nat)
    requires k < |events|
    ensures DrawsBefore(events, k + 1) == DrawsBefore(events, k) + if events[k] == TakeId then {k} else {}
    ensures |DrawsBefore(events, k + 1)| == |DrawsBefore(events, k)| + if events[k] == TakeId then 1 else 0
  {
  }

  /** The k-th number drawn is k. */
  lemma {:induction false} NumbersAreCounted(states: seq<State>, events: seq<Event>, k: nat)
    requires IsRun(states, events) && k < |states|
    ensures states[k].lastId == |DrawsBefore(events, k)|
    ensures states[0].active == None
  {
    if k > 0 {
      NumbersAreCounted(states, events, k - 1);
      OneMoreDraw(events, k - 1);
    }
  }
}
