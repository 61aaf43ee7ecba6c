/** The application logic of main.c: parsing the device id out of the
    connection string, the `start`/`stop` device methods, and the
    `messagePending` flow control that keeps at most one message in flight.

    The IoT Hub SDK is not part of the model: whether a message could be
    created, whether `IoTHubClient_LL_SendEventAsync` accepted it, and the
    confirmation result are oracle arguments.  `readMessage` (wiring.c) is
    an oracle too: its return code and the payload it wrote.  C strings are
    the characters before their NUL terminator. */
module App {
  import opened Optional

  // ---------------------------------------------------------------------------
  // `get_device_id`

  const DEVICE_ID_KEY: string := "DeviceId="

  /** `pat` occurs in `s` at index `i`. */
  predicate OccursAt(s: string, pat: string, i: nat)
  {
    i + |pat| <= |s| && s[i..i + |pat|] == pat
  }

  /** `strstr` on the tail of `s` from `from`: the first index at or after
      `from` where `pat` occurs, if there is one. */
  function Find(s: string, pat: string, from: nat): (r: Option<nat>)
    requires from <= |s|
    ensures r.None? ==> forall i: nat {:trigger OccursAt(s, pat, i)} :: from <= i ==> !OccursAt(s, pat, i)
    ensures r.Some? ==> from <= r.value && OccursAt(s, pat, r.value) &&
                        forall i: nat {:trigger OccursAt(s, pat, i)} :: from <= i < r.value ==> !OccursAt(s, pat, i)
    decreases |s| - from
  {
    if from + |pat| > |s| then None
    else if s[from..from + |pat|] == pat then Some(from)
    else Find(s, pat, from + 1)
  }

  /** `get_device_id`: the text after the first `DeviceId=`, up to the next
      `;` or the end of the string; `None` stands for the NULL returned when
      there is no `DeviceId=`. */
  function DeviceId(s: string): (r: Option<string>)
    ensures r.None? <==> forall i: nat {:trigger OccursAt(s, DEVICE_ID_KEY, i)} :: !OccursAt(s, DEVICE_ID_KEY, i)
    ensures r.Some? ==> |DEVICE_ID_KEY| + |r.value| <= |s|
  {
    match Find(s, DEVICE_ID_KEY, 0)
    case None => None
    case Some(i) =>
      var start := i + |DEVICE_ID_KEY|;
      var end := match Find(s, ";", start) case None => |s| case Some(j) => j;
      Some(s[start..end])
  }

  /** A one-character pattern occurs exactly where that character is. */
  lemma OccursAtChar(s: string, c: char, i: nat)
    ensures OccursAt(s, [c], i) <==> i < |s| && s[i] == c
  {
    if i < |s| {
      assert s[i..i + 1] == [s[i]];
    }
  }

  /** When the first `DeviceId=` is at `i`, the result is the text right
      after it: a piece of the input with no `;`, ending at a `;` or at the
      end of the string. */
  lemma DeviceIdPresent(s: string, i: nat)
    requires OccursAt(s, DEVICE_ID_KEY, i)
    requires forall j: nat {:trigger OccursAt(s, DEVICE_ID_KEY, j)} :: j < i ==> !OccursAt(s, DEVICE_ID_KEY, j)
    ensures DeviceId(s).Some?
    ensures var id := DeviceId(s).value;
            var start := i + |DEVICE_ID_KEY|;
            start + |id| <= |s| && s[start..start + |id|] == id && ';' !in id &&
            (start + |id| == |s| || s[start + |id|] == ';')
  {
    var start := i + |DEVICE_ID_KEY|;
    match Find(s, ";", start)
    case None =>
      forall k | start <= k < |s|
        ensures s[k] != ';'
      {
        OccursAtChar(s, ';', k);
      }
    case Some(j) =>
      OccursAtChar(s, ';', j);
      forall k | start <= k < j
        ensures s[k] != ';'
      {
        OccursAtChar(s, ';', k);
      }
  }

  /** A connection string whose first `DeviceId=` is followed by `id` and
      then by `;` or the end gives back exactly `id`. */
  lemma DeviceIdOfConnectionString(prefix: string, id: string, suffix: string)
    requires forall j: nat {:trigger OccursAt(prefix + DEVICE_ID_KEY, DEVICE_ID_KEY, j)} ::
               j < |prefix| ==> !OccursAt(prefix + DEVICE_ID_KEY, DEVICE_ID_KEY, j)
    requires ';' !in id
    requires suffix == [] || suffix[0] == ';'
    ensures DeviceId(prefix + DEVICE_ID_KEY + id + suffix) == Some(id)
  {
    var s := prefix + DEVICE_ID_KEY + id + suffix;
    var start := |prefix| + |DEVICE_ID_KEY|;
    assert s[|prefix|..start] == DEVICE_ID_KEY;
    forall j: nat | j < |prefix|
      ensures !OccursAt(s, DEVICE_ID_KEY, j)
    {
      assert !OccursAt(prefix + DEVICE_ID_KEY, DEVICE_ID_KEY, j);
      assert s[j..j + |DEVICE_ID_KEY|] == (prefix + DEVICE_ID_KEY)[j..j + |DEVICE_ID_KEY|];
    }
    DeviceIdPresent(s, |prefix|);
    assert s[start..start + |id|] == id;
    assert start + |id| == |s| || s[start + |id|] == ';';
    SemicolonSpanUnique(s, start, DeviceId(s).value, id);
  }

  /** From a given index there is only one piece of text that has no `;`
      and ends at a `;` or at the end. */
  lemma SemicolonSpanUnique(s: string, start: nat, a: string, b: string)
    requires start + |a| <= |s| && s[start..start + |a|] == a && ';' !in a
    requires start + |a| == |s| || s[start + |a|] == ';'
    requires start + |b| <= |s| && s[start..start + |b|] == b && ';' !in b
    requires start + |b| == |s| || s[start + |b|] == ';'
    ensures a == b
  {
    assert forall k {:trigger a[k]} :: 0 <= k < |a| ==> s[start + k] == a[k];
    assert forall k {:trigger b[k]} :: 0 <= k < |b| ==> s[start + k] == b[k];
    if |a| < |b| {
      assert false;
    } else if |b| < |a| {
      assert false;
    }
  }

  // ---------------------------------------------------------------------------
  // `deviceMethodCallback`

  /** The two response bodies (main.c:20-21), JSON strings with their quotes. */
  const ON_SUCCESS: string := "\"Successfully invoke device method\""
  const NOT_FOUND: string := "\"No method found\""

  /** The status code and response body a method call answers with. */
  datatype MethodReply = MethodReply(status: int, body: string)

  /** The dispatch of `deviceMethodCallback`: `start` and `stop` are known
      and answer 200 with `onSuccess`; any other name answers 404 with
      `notFound`. */
  function Dispatch(name: string): (r: MethodReply)
    ensures r.status == 200 <==> name == "start" || name == "stop"
    ensures r.status == 200 || r.status == 404
    ensures r.body == (if r.status == 200 then ON_SUCCESS else NOT_FOUND)
  {
    if name == "start" || name == "stop" then MethodReply(200, ON_SUCCESS)
    else MethodReply(404, NOT_FOUND)
  }

  // ---------------------------------------------------------------------------
  // The flow-control state machine

  /** The two flags and the loop counter. */
  datatype Flags = Flags(sendingMessage: bool, messagePending: bool, count: int)

  /** Program start: sending, nothing pending, no message read yet. */
  const INITIAL: Flags := Flags(true, false, 0)

  /** What can happen to the application: a device method call; the SDK's
      confirmation of the message in flight; one turn of the main loop, with
      what `readMessage` returned, whether the message could be created and
      whether `SendEventAsync` accepted it. */
  datatype Event =
    | Invoke(name: string)
    | Confirm(ok: bool)
    | Tick(readResult: int, created: bool, sendOk: bool)

  /** The loop reads and sends only while sending is on and nothing is in
      flight. */
  predicate Gated(st: Flags)
  {
    st.sendingMessage && !st.messagePending
  }

  /** The event hands a message to the hub and it is accepted. */
  predicate Accepted(st: Flags, e: Event)
  {
    e.Tick? && Gated(st) && e.readResult == 1 && e.created && e.sendOk
  }

  /** The effect of one event on the flags. */
  function Step(st: Flags, e: Event): (r: Flags)
    ensures st.count <= r.count <= st.count + 1
    ensures e.Confirm? ==> !r.messagePending
    ensures r.messagePending && !st.messagePending ==> Accepted(st, e)
  {
    match e
    case Invoke(name) =>
      if name == "start" then st.(sendingMessage := true)
      else if name == "stop" then st.(sendingMessage := false)
      else st
    case Confirm(_) => st.(messagePending := false)
    case Tick(readResult, created, sendOk) =>
      if !Gated(st) then st
      else
        var next := st.(count := st.count + 1);
        if readResult == 1 && created && sendOk then next.(messagePending := true) else next
  }

  /** The flags after a sequence of events. */
  function Run(st: Flags, es: seq<Event>): (r: Flags)
    ensures st.count <= r.count <= st.count + |es|
  {
    if es == [] then st else Step(Run(st, es[..|es| - 1]), es[|es| - 1])
  }

  lemma RunStep(st: Flags, es: seq<Event>, i: nat)
    requires i < |es|
    ensures Run(st, es[..i + 1]) == Step(Run(st, es[..i]), es[i])
  {
    assert es[..i + 1][..i] == es[..i];
  }

  /** One event, summed up: a message is pending afterwards exactly when
      this event's message was accepted, or one was pending and this is not
      its confirmation; sending is on exactly when this is `start`, or it was
      on and this is not `stop`; the counter moves, by one, exactly on a loop
      turn that passed the gate. */
  lemma StepMeaning(st: Flags, e: Event)
    ensures var r := Step(st, e);
            (r.messagePending <==> Accepted(st, e) || (st.messagePending && !e.Confirm?)) &&
            (r.sendingMessage <==> e == Invoke("start") || (st.sendingMessage && e != Invoke("stop"))) &&
            r.count == st.count + (if e.Tick? && Gated(st) then 1 else 0)
  {
  }

  /** While a message is in flight and no confirmation arrives, nothing
      else is sent and the counter stands still. */
  lemma {:induction false} PendingHolds(st: Flags, es: seq<Event>)
    requires st.messagePending
    requires forall k {:trigger es[k]} :: 0 <= k < |es| ==> !es[k].Confirm?
    ensures Run(st, es).messagePending && Run(st, es).count == st.count
    ensures forall k {:trigger es[k]} :: 0 <= k < |es| ==> !Accepted(Run(st, es[..k]), es[k])
  {
    if es != [] {
      var init := es[..|es| - 1];
      PendingHolds(st, init);
      forall k | 0 <= k < |es|
        ensures !Accepted(Run(st, es[..k]), es[k])
      {
        if k < |es| - 1 {
          assert es[..k] == init[..k];
          assert !Accepted(Run(st, init[..k]), init[k]);
        } else {
          assert es[..k] == init;
        }
      }
    }
  }

  /** At most one message is in flight: between two accepted messages the
      hub has confirmed one. */
  lemma OneMessageInFlight(st: Flags, es: seq<Event>, i: nat, j: nat)
    requires i < j < |es|
    requires Accepted(Run(st, es[..i]), es[i])
    requires Accepted(Run(st, es[..j]), es[j])
    ensures exists k {:trigger es[k]} :: i < k < j && es[k].Confirm?
  {
    if forall k {:trigger es[k]} :: i < k < j ==> !es[k].Confirm? {
      RunStep(st, es, i);
      var mid := es[i + 1..j];
      forall k | 0 <= k < |mid|
        ensures !mid[k].Confirm?
      {
        assert mid[k] == es[i + 1 + k];
      }
      PendingHolds(Run(st, es[..i + 1]), mid);
      RunSplit(st, es, i + 1, j);
      assert false;
    }
  }

  /** Running `es[..j]` is running `es[..i]` and then `es[i..j]`. */
  lemma {:induction false} RunSplit(st: Flags, es: seq<Event>, i: nat, j: nat)
    requires i <= j <= |es|
    ensures Run(st, es[..j]) == Run(Run(st, es[..i]), es[i..j])
    decreases j
  {
    if j > i {
      RunSplit(st, es, i, j - 1);
      RunStep(st, es, j - 1);
      assert es[i..j][..j - i - 1] == es[i..j - 1];
    } else {
      assert es[i..j] == [];
    }
  }

  /** After `stop`, and until the next `start`, the loop reads and sends
      nothing. */
  lemma {:induction false} StopHaltsLoop(st: Flags, es: seq<Event>)
    requires !st.sendingMessage
    requires forall k {:trigger es[k]} :: 0 <= k < |es| ==> es[k] != Invoke("start")
    ensures !Run(st, es).sendingMessage && Run(st, es).count == st.count
    ensures forall k {:trigger es[k]} :: 0 <= k < |es| ==> !Accepted(Run(st, es[..k]), es[k])
  {
    if es != [] {
      var init := es[..|es| - 1];
      StopHaltsLoop(st, init);
      forall k | 0 <= k < |es|
        ensures !Accepted(Run(st, es[..k]), es[k])
      {
        if k < |es| - 1 {
          assert es[..k] == init[..k];
          assert !Accepted(Run(st, init[..k]), init[k]);
        } else {
          assert es[..k] == init;
        }
      }
    }
  }

  /** The message ids the loop hands to `readMessage`: 1, 2, ..., n. */
  function Ids(n: nat): (ids: seq<int>)
    ensures |ids| == n
    ensures forall k {:trigger ids[k]} :: 0 <= k < n ==> ids[k] == k + 1
  {
    if n == 0 then [] else Ids(n - 1) + [n]
  }

  // ---------------------------------------------------------------------------
  // The globals and the loop counter of main.c

  class Client {
    /** `sendingMessage` and `messagePending`. */
    var sendingMessage: bool
    var messagePending: bool
    /** The loop's `count`. */
    var count: int
    /** The message ids passed to `readMessage`, oldest first. */
    var readIds: seq<int>
    /** The messages `SendEventAsync` accepted, oldest first. */
    var outbox: seq<string>
    /** How often the LED was blinked for a confirmed message. */
    var blinks: nat

    function State(): Flags
      reads this
    {
      Flags(sendingMessage, messagePending, count)
    }

    /** The loop numbers its reads 1, 2, 3, ... without a gap. */
    predicate Valid()
      reads this
    {
      count >= 0 && readIds == Ids(count)
    }

    constructor ()
      ensures State() == INITIAL && Valid()
      ensures outbox == [] && blinks == 0
    {
      sendingMessage := true;
      messagePending := false;
      count := 0;
      readIds := [];
      outbox := [];
      blinks := 0;
    }

    /** `start` */
    method Start()
      modifies this
      ensures sendingMessage && messagePending == old(messagePending)
      ensures count == old(count) && readIds == old(readIds) && outbox == old(outbox) && blinks == old(blinks)
    {
      sendingMessage := true;
    }

    /** `stop` */
    method Stop()
      modifies this
      ensures !sendingMessage && messagePending == old(messagePending)
      ensures count == old(count) && readIds == old(readIds) && outbox == old(outbox) && blinks == old(blinks)
    {
      sendingMessage := false;
    }

    /** `deviceMethodCallback`: the status it returns, and the response buffer
      with its size (the body's bytes, without a NUL terminator). */
    method DeviceMethodCallback(methodName: string) returns (result: int, response: seq<char>, responseSize: nat)
      modifies this
      ensures State() == Step(old(State()), Invoke(methodName))
      ensures result == Dispatch(methodName).status && response == Dispatch(methodName).body
      ensures responseSize == |response|
      ensures readIds == old(readIds) && outbox == old(outbox) && blinks == old(blinks)
    {
      var responseMessage := ON_SUCCESS;
      result := 200;
      if methodName == "start" {
        Start();
      } else if methodName == "stop" {
        Stop();
      } else {
        responseMessage := NOT_FOUND;
        result := 404;
      }
      responseSize := |responseMessage|;
      response := responseMessage[..responseSize];
    }

    /** `sendCallback`: the LED blinks when the hub confirmed the message,
        and in every case nothing is pending any more. */
    method SendCallback(confirmedOk: bool)
      modifies this
      ensures State() == Step(old(State()), Confirm(confirmedOk))
      ensures blinks == old(blinks) + (if confirmedOk then 1 else 0)
      ensures readIds == old(readIds) && outbox == old(outbox)
    {
      if confirmedOk {
        blinks := blinks + 1;
      }
      messagePending := false;
    }

    /** `sendMessages`: a message is pending afterwards only when it could be
        created and `SendEventAsync` accepted it; otherwise nothing changes. */
    method SendMessages(buffer: string, created: bool, sendOk: bool)
      modifies this
      ensures messagePending == (old(messagePending) || (created && sendOk))
      ensures outbox == old(outbox) + (if created && sendOk then [buffer] else [])
      ensures sendingMessage == old(sendingMessage) && count == old(count)
      ensures readIds == old(readIds) && blinks == old(blinks)
    {
      if created {
        if sendOk {
          messagePending := true;
          outbox := outbox + [buffer];
        }
      }
    }

    /** One turn of the main loop, `readMessage` answering `readResult` with
        `payload`; the SDK's `DoWork` and the delay are not modelled. */
    method LoopIteration(readResult: int, payload: string, created: bool, sendOk: bool)
      requires Valid()
      modifies this
      ensures Valid()
      ensures State() == Step(old(State()), Tick(readResult, created, sendOk))
      ensures readIds == old(readIds) + (if Gated(old(State())) then [old(count) + 1] else [])
      ensures outbox == old(outbox) +
                (if Accepted(old(State()), Tick(readResult, created, sendOk)) then [payload] else [])
      ensures blinks == old(blinks)
    {
      if sendingMessage && !messagePending {
        count := count + 1;
        readIds := readIds + [count];
        if readResult == 1 {
          SendMessages(payload, created, sendOk);
        }
      }
    }
  }
}
