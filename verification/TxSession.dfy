/** Who owns the transmitter: the one stored session, under interleaved handlers of browser sockets
    and ALSA start and stop requests. Every step is one critical section of the session lock. */
module TxSession {
  import opened Wrappers

  /** A browser session carries its number, an ALSA session its cancellation token. */
  datatype ActiveTx = Browser(id: nat) | Alsa(token: nat)

  /** The lock's content and the counters, with the history the theorems speak of: session numbers
      handed out and not yet used, browser sessions open and finished, and tokens cancelled. */
  datatype State = State(
    active: Option<ActiveTx>,
    lastId: nat,
    lastToken: nat,
    waiting: set<nat>,
    open: set<nat>,
    finished: set<nat>,
    cancelled: set<nat>)

  const INITIAL := State(None, 0, 0, {}, {}, {}, {})

  datatype Event =
    | TakeId                // a socket handler draws its session number
    | OpenBrowser(id: nat)  // and later enters the lock with it
    | FinishBrowser(id: nat)
    | StartAlsa
    | StopAlsa
    | Shutdown

  /** A handler opens only with a number it drew, once, and finishes only a session it opened, once. */
  predicate Enabled(s: State, e: Event) {
    match e
    case OpenBrowser(id) => id in s.waiting
    case FinishBrowser(id) => id in s.open
    case _ => true
  }

  predicate AlsaActive(s: State) {
    s.active.Some? && s.active.value.Alsa?
  }

  function Step(s: State, e: Event): State {
    match e
    case TakeId => s.(lastId := s.lastId + 1, waiting := s.waiting + {s.lastId + 1})
    case OpenBrowser(id) =>
      if AlsaActive(s) then s.(waiting := s.waiting - {id})
      else s.(waiting := s.waiting - {id}, active := Some(Browser(id)), open := s.open + {id})
    case FinishBrowser(id) =>
      var s' := s.(open := s.open - {id}, finished := s.finished + {id});
      if s.active == Some(Browser(id)) then s'.(active := None) else s'
    case StartAlsa =>
      if s.active.Some? then s else s.(lastToken := s.lastToken + 1, active := Some(Alsa(s.lastToken + 1)))
    case StopAlsa =>
      if AlsaActive(s) then s.(active := None, cancelled := s.cancelled + {s.active.value.token}) else s
    case Shutdown =>
      var s' := s.(active := None);
      if AlsaActive(s) then s'.(cancelled := s.cancelled + {s.active.value.token}) else s'
  }

  /** The session field and its handlers. */
  class Session {
    var active: Option<ActiveTx>
    var lastId: nat
    var lastToken: nat
    ghost var waiting: set<nat>
    ghost var open: set<nat>
    ghost var finished: set<nat>
    ghost var cancelled: set<nat>

    constructor ()
      ensures View() == INITIAL
    {
      active, lastId, lastToken, waiting, open, finished, cancelled := None, 0, 0, {}, {}, {}, {};
    }

    ghost function View(): State
      reads this
    {
      State(active, lastId, lastToken, waiting, open, finished, cancelled)
    }

    /** `next_browser_session_id`. */
    method NextBrowserSessionId() returns (id: nat)
      modifies this
      ensures View() == Step(old(View()), TakeId) && id == lastId
    {
      lastId := lastId + 1;
      id := lastId;
      waiting := waiting + {id};
    }

    /** The lock section of the browser transmit handler. */
    method OpenBrowserSession(id: nat) returns (ok: bool)
      requires Enabled(View(), OpenBrowser(id))
      modifies this
      ensures View() == Step(old(View()), OpenBrowser(id)) && (ok <==> active == Some(Browser(id)) && id in open)
    {
      waiting := waiting - {id};
      if active.Some? && active.value.Alsa? {
        return false;
      }
      active := Some(Browser(id));
      open := open + {id};
      ok := true;
    }

    /** `finish_browser_tx_session`. */
    method FinishBrowserSession(id: nat)
      requires Enabled(View(), FinishBrowser(id))
      modifies this
      ensures View() == Step(old(View()), FinishBrowser(id))
    {
      if active.Some? && active.value.Browser? && active.value.id == id {
        active := None;
      }
      open, finished := open - {id}, finished + {id};
    }

    /** The lock section of `post_ptt_start`. */
    method StartAlsaSession() returns (ok: bool)
      modifies this
      ensures View() == Step(old(View()), StartAlsa) && (ok <==> old(active).None?)
    {
      if active.Some? {
        return false;
      }
      lastToken := lastToken + 1;
      active := Some(Alsa(lastToken));
      ok := true;
    }

    /** `stop_alsa_tx_task`: takes the session out and puts a browser session back. */
    method StopAlsaSession() returns (stopped: Result<bool, ()>)
      modifies this
      ensures View() == Step(old(View()), StopAlsa)
      ensures stopped == if old(active).None? then Ok(false) else if old(active).value.Alsa? then Ok(true) else Err(())
    {
      var taken := active;
      active := None;
      match taken
      case Some(Alsa(token)) =>
        cancelled := cancelled + {token};
        stopped := Ok(true);
      case Some(Browser(id)) =>
        active := Some(Browser(id));
        stopped := Err(());
      case None =>
        stopped := Ok(false);
    }

    /** `shutdown_tx_session`. */
    method ShutdownSession()
      modifies this
      ensures View() == Step(old(View()), Shutdown)
    {
      var taken := active;
      active := None;
      if taken.Some? && taken.value.Alsa? {
        cancelled := cancelled + {taken.value.token};
      }
    }
  }

  // --- every interleaving ---

  ghost predicate IsRun(states: seq<State>, events: seq<Event>) {
    && |states| == |events| + 1 && states[0] == INITIAL
    && forall k :: 0 <= k < |events| ==> Enabled(states[k], events[k]) && states[k + 1] == Step(states[k], events[k])
  }

  /** Numbers are handed out once and move from waiting to open to finished; the stored browser
      session is open, the stored ALSA session not cancelled. */
  ghost predicate Invariant(s: State) {
    && (forall id :: id in s.waiting + s.open + s.finished ==> id <= s.lastId)
    && s.waiting !! s.open !! s.finished
    && (forall token :: token in s.cancelled ==> token <= s.lastToken)
    && match s.active
       case None => true
       case Some(Browser(id)) => id in s.open
       case Some(Alsa(token)) => token <= s.lastToken && token !in s.cancelled
  }

  lemma StepKeepsInvariant(s: State, e: Event)
    requires Invariant(s) && Enabled(s, e)
    ensures Invariant(Step(s, e))
  {
  }

  lemma {:induction false} RunKeepsInvariant(states: seq<State>, events: seq<Event>, k: nat)
    requires IsRun(states, events) && k < |states|
    ensures Invariant(states[k])
  {
    if k > 0 {
      RunKeepsInvariant(states, events, k - 1);
      StepKeepsInvariant(states[k - 1], events[k - 1]);
    }
  }

  /** In every interleaving the stored browser session is one that was opened and not yet finished,
      and a stored ALSA session has not been cancelled. */
  lemma StoredSessionIsLive(states: seq<State>, events: seq<Event>, k: nat)
    requires IsRun(states, events) && k < |states|
    ensures forall id :: states[k].active == Some(Browser(id)) ==> id in states[k].open && id !in states[k].finished
    ensures AlsaActive(states[k]) ==> states[k].active.value.token !in states[k].cancelled
  {
    RunKeepsInvariant(states, events, k);
  }

  /** The events that end a session: an ALSA one only a stop or the shutdown, a browser one only
      its own finish, a newer browser session, or the shutdown. */
  predicate Ends(session: ActiveTx, e: Event) {
    match e
    case Shutdown => true
    case StopAlsa => session.Alsa?
    case FinishBrowser(id) => session == Browser(id)
    case OpenBrowser(id) => session.Browser?
    case _ => false
  }

  /** A session stays stored until such an event, whatever else is interleaved: browser sessions never
      displace ALSA ones nor the reverse, and a finish never ends somebody else's session. */
  lemma {:induction false} SessionStaysUntilEnded(states: seq<State>, events: seq<Event>, from: nat, k: nat,
      session: ActiveTx)
    requires IsRun(states, events) && from <= k < |states|
    requires states[from].active == Some(session)
    requires forall i :: from <= i < k ==> !Ends(session, events[i])
    ensures states[k].active == Some(session)
    decreases k
  {
    if k > from {
      SessionStaysUntilEnded(states, events, from, k - 1, session);
    }
  }

  /** Conversely the transmitter changes hands only by such an event: if the stored session is another
      one later, one of the events in between ended it. */
  lemma ChangeMeansEnded(states: seq<State>, events: seq<Event>, from: nat, k: nat, session: ActiveTx)
    requires IsRun(states, events) && from <= k < |states|
    requires states[from].active == Some(session) && states[k].active != Some(session)
    ensures exists i :: from <= i < k && Ends(session, events[i])
  {
    if forall i :: from <= i < k ==> !Ends(session, events[i]) {
      SessionStaysUntilEnded(states, events, from, k, session);
    }
  }

  /** A finished session is never stored again. */
  lemma {:induction false} FinishedStaysFinished(states: seq<State>, events: seq<Event>, from: nat, k: nat, id: nat)
    requires IsRun(states, events) && from <= k < |states| && id in states[from].finished
    ensures id in states[k].finished && states[k].active != Some(Browser(id))
    decreases k
  {
    StoredSessionIsLive(states, events, k);
    if k > from {
      FinishedStaysFinished(states, events, from, k - 1, id);
    }
  }

  // --- what each event does, in every interleaving ---

  /** The stored session stays exactly if the event does not end it; otherwise the event decides what is
      stored next. A stop cancels the stored ALSA session and leaves none, as do a session's own finish and
      the shutdown; opening stores its number unless ALSA transmits; starting stores a new, uncancelled
      session if there was none. */
  lemma Handover(states: seq<State>, events: seq<Event>, k: nat)
    requires IsRun(states, events) && k < |events|
    ensures var before, after := states[k].active, states[k + 1].active;
      && (before.Some? ==> (after == before <==> !Ends(before.value, events[k])))
      && match events[k]
         case TakeId => after == before
         case OpenBrowser(id) =>
           if before.Some? && before.value.Alsa? then after == before else after == Some(Browser(id))
         case FinishBrowser(id) => after == if before == Some(Browser(id)) then None else before
         case StartAlsa =>
           if before.Some? then after == before
           else after.Some? && after.value.Alsa? && after.value.token !in states[k + 1].cancelled
         case StopAlsa =>
           if before.Some? && before.value.Alsa?
           then after == None && before.value.token in states[k + 1].cancelled
           else after == before
         case Shutdown =>
           && after == None
           && (before.Some? && before.value.Alsa? ==> before.value.token in states[k + 1].cancelled)
  {
    RunKeepsInvariant(states, events, k);
    RunKeepsInvariant(states, events, k + 1);
  }
}
