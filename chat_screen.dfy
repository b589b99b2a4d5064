/**
 * The chat screen's input box and typing indicator. Time is a simulated
 * clock `now` in milliseconds; the JavaScript runtime's pending timers are the
 * sequence `timers`, each with the handle `setTimeout` returned and the time it
 * is due; `log` records every call the screen makes to the chat store, with the
 * time it is made. The screen is created with the route's contract id and the
 * auth store's `user` id and `profile.nombreMostrar`, either of which may be
 * absent; they do not change while the screen is shown.
 */
module Chat {
  import opened Wrappers
  import opened JsText

  /** A call made to the chat store. */
  datatype ChatCall =
    | FetchMessages(contratacionId: string)
    | SubscribeToMessages(contratacionId: string, userId: string, nombreMostrar: string)
    | MarkAsRead(contratacionId: string, userId: string)
    | UpdateTypingStatus(contratacionId: string, userId: string, typing: bool)
    | ClearTypingStatus(contratacionId: string, userId: string)
    | UnsubscribeFromMessages(contratacionId: string)
    | SendMessage(userId: string, contratacionId: string, mensaje: string, nombreMostrar: string)

  datatype Logged = Logged(at: int, call: ChatCall)

  /** A timer armed with `setTimeout`, still pending in the runtime. */
  datatype Timer = Timer(handle: nat, deadline: int)

  /** Before the mount effect has run, after it (with or without a cleanup
      registered), and after the cleanup ran. */
  datatype Phase = Rendered | Mounted(cleanupArmed: bool) | Unmounted

  /** A chat message as the store holds it; the screen only passes it on. */
  datatype ChatMessage = ChatMessage(id: string, remitenteId: string, mensaje: string)

  /** The delay of the typing timer. */
  const TypingDelay: int := 1000

  /** A call announcing that the user is typing. */
  predicate TypingOn(c: ChatCall) {
    c.UpdateTypingStatus? && c.typing
  }

  /** `clearTimeout(h)`: the pending timers without the one with handle `h`;
      a handle that is no longer pending changes nothing. */
  function RemoveHandle(timers: seq<Timer>, h: nat): seq<Timer> {
    if timers == [] then []
    else if timers[0].handle == h then RemoveHandle(timers[1..], h)
    else [timers[0]] + RemoveHandle(timers[1..], h)
  }

  /** `RemoveHandle` keeps exactly the timers whose handle is not `h`. */
  lemma {:induction false} RemoveHandleSpec(timers: seq<Timer>, h: nat)
    ensures |RemoveHandle(timers, h)| <= |timers|
    ensures forall t :: t in RemoveHandle(timers, h) <==> t in timers && t.handle != h
  {
    if timers != [] {
      RemoveHandleSpec(timers[1..], h);
      assert timers == [timers[0]] + timers[1..];
    }
  }

  /** Cancelling the handle of the only pending timer leaves none pending. */
  lemma RemoveOnlyPending(timers: seq<Timer>, h: nat)
    requires |timers| <= 1 && (|timers| == 1 ==> timers[0].handle == h)
    ensures RemoveHandle(timers, h) == []
  {
    if |timers| == 1 {
      assert timers[1..] == [];
    }
  }

  /** A JavaScript property read: `undefined` for a missing key. */
  function Lookup<V>(m: map<string, V>, key: string): Option<V> {
    if key in m then Some(m[key]) else None
  }

  /** `messages[contratacionId] || []`: an array is truthy even when empty, so
      a stored list is returned as it is and a missing one becomes []. */
  function ChatMessagesFor(messages: map<string, seq<ChatMessage>>, contratacionId: string): (r: seq<ChatMessage>)
    ensures contratacionId !in messages ==> r == []
    ensures contratacionId in messages ==> r == messages[contratacionId]
  {
    Lookup(messages, contratacionId).GetOr([])
  }

  /** `isTyping[contratacionId] || false`. */
  function IsOtherUserTyping(isTyping: map<string, bool>, contratacionId: string): (r: bool)
    ensures contratacionId !in isTyping ==> !r
    ensures contratacionId in isTyping ==> r == isTyping[contratacionId]
  {
    var v := Lookup(isTyping, contratacionId);
    v.Some? && v.value
  }

  /** Every message sent in `log` is non-empty and trimmed. */
  ghost predicate SentTrimmed(log: seq<Logged>) {
    forall k :: 0 <= k < |log| && log[k].call.SendMessage? ==>
      log[k].call.mensaje != "" && Trim(log[k].call.mensaje) == log[k].call.mensaje
  }

  /** `log[j]` is `e`, and no later entry announces typing. */
  ghost predicate LastTypingOnAt(log: seq<Logged>, j: int, e: Logged) {
    0 <= j < |log| && log[j] == e && forall m :: j < m < |log| ==> !TypingOn(log[m].call)
  }

  /** Appending an entry that is not a blank or untrimmed message keeps
      `SentTrimmed`. */
  lemma SentTrimmedAppend(log: seq<Logged>, e: Logged)
    requires SentTrimmed(log)
    requires e.call.SendMessage? ==> e.call.mensaje != "" && Trim(e.call.mensaje) == e.call.mensaje
    ensures SentTrimmed(log + [e])
  {
    forall k | 0 <= k < |log + [e]| && (log + [e])[k].call.SendMessage?
      ensures (log + [e])[k].call.mensaje != "" && Trim((log + [e])[k].call.mensaje) == (log + [e])[k].call.mensaje
    {
      if k < |log| { assert (log + [e])[k] == log[k]; }
    }
  }

  class ChatScreen {
    const contratacionId: string
    const user: Option<string>
    const profile: Option<string>
    var message: string
    var now: int
    var timers: seq<Timer>
    var typingTimeoutRef: Option<nat>
    var nextHandle: nat
    var log: seq<Logged>
    var phase: Phase
    /** When the text last changed with a user present. */
    ghost var lastChange: int
    /** Where in `log` that change announced typing. */
    ghost var lastTypingOn: int

    /**
     * At most one timer is pending; it is due `TypingDelay` after the last
     * change (it may be overdue: the runtime runs a callback at some moment at
     * or after its deadline), and is the one the ref holds, and it was armed
     * for a present user, whose last typing announcement in the log is that
     * change's. Every message sent is non-empty and trimmed. A registered
     * cleanup means a user and a profile were present.
     */
    ghost predicate Valid()
      reads this
    {
      && |timers| <= 1
      && 1 <= nextHandle
      && (typingTimeoutRef.Some? ==> typingTimeoutRef.value < nextHandle)
      && (forall k :: 0 <= k < |timers| ==>
            timers[k].deadline == lastChange + TypingDelay)
      && (|timers| == 1 ==>
            && typingTimeoutRef == Some(timers[0].handle)
            && user.Some?
            && LastTypingOnAt(log, lastTypingOn, Logged(lastChange, UpdateTypingStatus(contratacionId, user.value, true))))
      && SentTrimmed(log)
      && (phase == Mounted(true) ==> user.Some? && profile.Some?)
    }

    constructor (contratacionId: string, user: Option<string>, profile: Option<string>)
      ensures Valid()
      ensures this.contratacionId == contratacionId && this.user == user && this.profile == profile
      ensures message == "" && now == 0 && timers == [] && typingTimeoutRef == None
      ensures log == [] && phase == Rendered
    {
      this.contratacionId := contratacionId;
      this.user := user;
      this.profile := profile;
      message := "";
      now := 0;
      timers := [];
      typingTimeoutRef := None;
      nextHandle := 1;
      log := [];
      phase := Rendered;
      lastChange := 0;
      lastTypingOn := 0;
    }

    /** The mount effect: with a user and a profile it fetches the messages,
        subscribes and marks them read, in that order, and registers the
        cleanup; otherwise it does nothing. */
    method Mount()
      requires Valid() && phase == Rendered
      modifies this`log, this`phase
      ensures Valid()
      ensures user.None? || profile.None? ==> log == old(log) && phase == Mounted(false)
      ensures user.Some? && profile.Some? ==> phase == Mounted(true)
      ensures user.Some? && profile.Some? ==>
        log == old(log) + [ Logged(now, FetchMessages(contratacionId)),
                            Logged(now, SubscribeToMessages(contratacionId, user.value, profile.value)),
                            Logged(now, MarkAsRead(contratacionId, user.value)) ]
    {
      if user.None? || profile.None? {
        phase := Mounted(false);
        return;
      }
      log := log + [Logged(now, FetchMessages(contratacionId))];
      log := log + [Logged(now, SubscribeToMessages(contratacionId, user.value, profile.value))];
      log := log + [Logged(now, MarkAsRead(contratacionId, user.value))];
      phase := Mounted(true);
    }

    /** The effect's cleanup: clears the typing status, then unsubscribes. The
        pending timer is not cancelled: it stays in `timers` and can still fire
        after the screen is gone. */
    method Unmount()
      requires Valid() && phase.Mounted?
      modifies this`log, this`phase
      ensures Valid()
      ensures phase == Unmounted
      ensures timers == old(timers)
      ensures !old(phase).cleanupArmed ==> log == old(log)
      ensures old(phase).cleanupArmed ==>
        log == old(log) + [ Logged(now, ClearTypingStatus(contratacionId, user.value)),
                            Logged(now, UnsubscribeFromMessages(contratacionId)) ]
    {
      if phase.cleanupArmed {
        if user.Some? {
          log := log + [Logged(now, ClearTypingStatus(contratacionId, user.value))];
        }
        log := log + [Logged(now, UnsubscribeFromMessages(contratacionId))];
      }
      phase := Unmounted;
    }

    /** `handleTextChange`: the text is stored; with a user present the screen
        announces typing, cancels the pending timer and arms a fresh one due
        `TypingDelay` from now, so exactly that one timer is pending. */
    method HandleTextChange(text: string)
      requires Valid()
      modifies this`message, this`log, this`timers, this`typingTimeoutRef, this`nextHandle,
        this`lastChange, this`lastTypingOn
      ensures Valid()
      ensures message == text
      ensures user.None? ==>
        && log == old(log) && timers == old(timers)
        && typingTimeoutRef == old(typingTimeoutRef) && nextHandle == old(nextHandle)
      ensures user.Some? ==>
        && log == old(log) + [Logged(now, UpdateTypingStatus(contratacionId, user.value, true))]
        && timers == [Timer(old(nextHandle), now + TypingDelay)]
        && typingTimeoutRef == Some(old(nextHandle))
        && nextHandle == old(nextHandle) + 1
        && lastChange == now
    {
      message := text;
      if user.None? {
        return;
      }
      var on := Logged(now, UpdateTypingStatus(contratacionId, user.value, true));
      SentTrimmedAppend(log, on);
      log := log + [on];
      lastTypingOn := |log| - 1;
      var pending := timers;
      if typingTimeoutRef.Some? {
        RemoveOnlyPending(pending, typingTimeoutRef.value);
        pending := RemoveHandle(pending, typingTimeoutRef.value);
      }
      // The cancelled timer was the only one pending, so the queue now holds
      // just the timer armed here.
      assert pending == [];
      var handle := nextHandle;
      nextHandle := nextHandle + 1;
      timers := [Timer(handle, now + TypingDelay)];
      typingTimeoutRef := Some(handle);
      lastChange := now;
    }

    /** `handleSend` up to its `await`: blank text, a missing user or a missing
        profile make it do nothing; otherwise the field is cleared and the
        trimmed text is sent with the user's id and display name. */
    method HandleSend() returns (sent: bool)
      requires Valid()
      modifies this`message, this`log
      ensures Valid()
      ensures sent <==> !IsBlank(old(message)) && user.Some? && profile.Some?
      ensures !sent ==> message == old(message) && log == old(log)
      ensures sent ==> message == ""
      ensures sent ==>
        log == old(log) + [Logged(now, SendMessage(user.value, contratacionId, Trim(old(message)), profile.value))]
    {
      if IsBlank(message) || user.None? || profile.None? {
        return false;
      }
      var messageText := Trim(message);
      TrimIdempotent(message);
      message := "";
      log := log + [Logged(now, SendMessage(user.value, contratacionId, messageText, profile.value))];
      sent := true;
    }

    /** The clock advances to `t` and nothing else happens: a timer that
        falls due meanwhile stays pending until the runtime runs it. */
    method AdvanceClock(t: int)
      requires Valid() && now <= t
      modifies this`now
      ensures Valid()
      ensures now == t
    {
      now := t;
    }

    /** The runtime runs the pending timer's callback, which it does at some
        moment at or after the deadline and never earlier. The callback
        announces that the user stopped typing; that happens at least
        `TypingDelay` after the last change, whose typing announcement is the
        last one in the log, so no earlier, cancelled change fires. The ref
        keeps the fired timer's handle. */
    method RunTimer() returns (fired: bool)
      requires Valid()
      modifies this`timers, this`log
      ensures Valid()
      ensures fired <==> |old(timers)| == 1 && old(timers)[0].deadline <= now
      ensures !fired ==> timers == old(timers) && log == old(log)
      ensures fired ==> timers == [] && now >= lastChange + TypingDelay
      ensures fired ==>
        log == old(log) + [Logged(now, UpdateTypingStatus(contratacionId, user.value, false))]
      ensures fired ==>
        exists j :: 0 <= j < |old(log)| &&
          old(log)[j] == Logged(lastChange, UpdateTypingStatus(contratacionId, user.value, true)) &&
          forall m :: j < m < |old(log)| ==> !TypingOn(old(log)[m].call)
    {
      fired := false;
      if |timers| == 1 && timers[0].deadline <= now {
        timers := [];
        if user.Some? {
          log := log + [Logged(now, UpdateTypingStatus(contratacionId, user.value, false))];
        }
        fired := true;
      }
    }
  }

  /** A keystroke at the very moment its predecessor's timer falls due, before
      the runtime has run that timer, cancels it: typing starts at 0 and again
      at 1000, and the single stop announcement comes at 2000. */
  method OverdueTimerCancelled(contratacionId: string, userId: string) returns (log: seq<Logged>)
    ensures log == [ Logged(0, UpdateTypingStatus(contratacionId, userId, true)),
                     Logged(TypingDelay, UpdateTypingStatus(contratacionId, userId, true)),
                     Logged(2 * TypingDelay, UpdateTypingStatus(contratacionId, userId, false)) ]
  {
    var screen := new ChatScreen(contratacionId, Some(userId), None);
    screen.HandleTextChange("h");
    screen.AdvanceClock(TypingDelay);
    screen.HandleTextChange("ho");
    var fired := screen.RunTimer();
    assert !fired;
    screen.AdvanceClock(2 * TypingDelay);
    fired := screen.RunTimer();
    log := screen.log;
  }
}
