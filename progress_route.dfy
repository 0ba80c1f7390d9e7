/** The `/api/progress` route: a module-level `progress` number and a single
    replaceable callback that forwards messages to the most recently opened
    server-sent-event stream (HTML Living Standard, section 9.2 "Server-sent
    events"). The stream transport is not modelled; each stream is the list of
    frames enqueued on it. */
module ProgressRoute {
  import opened Wrappers
  import opened Decimal

  /** The frame that carries one message as an event's `data` field. */
  function Frame(message: string): string {
    "data: " + message + "\n\n"
  }

  /** The frame `start` enqueues when a stream opens. */
  const StartFrame := Frame("Starting scraping...")

  /** One event stream: the frames enqueued on it, and whether it is still
      open (its `cancel` has not run). */
  datatype Stream = Stream(frames: seq<string>, open: bool)

  /** The module's state. `callback` is `Some(k)` when `progressCallback`
      is the forwarding closure of stream `k`, and `None` when it is `null`. */
  datatype Channel = Channel(progress: nat, callback: Option<nat>, streams: seq<Stream>)

  /** The callback, when set, forwards to an existing stream that is still open. */
  ghost predicate Valid(c: Channel) {
    c.callback.Some? ==> c.callback.value < |c.streams| && c.streams[c.callback.value].open
  }

  /** `parseInt(message.replace(/\D/g, ""), 10) || progress`: the digits of the
      message read as one decimal number, unless there are none or they read as 0. */
  function NextProgress(progress: nat, message: string): nat {
    var digits := Digits(message);
    if digits == [] || Value(digits) == 0 then progress else Value(digits)
  }

  /** `sendProgressUpdate(message)`. */
  function Send(c: Channel, message: string): (d: Channel)
    requires Valid(c)
    ensures Valid(d)
    ensures d.progress == NextProgress(c.progress, message)
    ensures d.callback == c.callback && |d.streams| == |c.streams|
    ensures forall k :: 0 <= k < |c.streams| && c.callback != Some(k) ==> d.streams[k] == c.streams[k]
    ensures c.callback.Some? ==>
      d.streams[c.callback.value] == Stream(c.streams[c.callback.value].frames + [Frame(message)], true)
  {
    var progress := NextProgress(c.progress, message);
    match c.callback
    case None => Channel(progress, None, c.streams)
    case Some(k) =>
      var s := c.streams[k];
      Channel(progress, Some(k), c.streams[k := Stream(s.frames + [Frame(message)], true)])
  }

  /** Several `sendProgressUpdate` calls, in order. */
  function SendAll(c: Channel, messages: seq<string>): (d: Channel)
    requires Valid(c)
    ensures Valid(d)
    ensures d.callback == c.callback && |d.streams| == |c.streams|
  {
    if messages == [] then c
    else Send(SendAll(c, messages[..|messages| - 1]), messages[|messages| - 1])
  }

  lemma SendAllSnoc(c: Channel, messages: seq<string>, m: string)
    requires Valid(c)
    ensures SendAll(c, messages + [m]) == Send(SendAll(c, messages), m)
  {
    assert (messages + [m])[..|messages|] == messages;
  }

  /** `GET`'s `start`: a new stream whose closure replaces the callback; its
      first frame announces the start. */
  function Open(c: Channel): (d: Channel)
    ensures Valid(d)
    ensures d.progress == c.progress
    ensures d.callback == Some(|c.streams|)
    ensures d.streams == c.streams + [Stream([StartFrame], true)]
  {
    Channel(c.progress, Some(|c.streams|), c.streams + [Stream([StartFrame], true)])
  }

  /** `cancel` of stream `k`: the stream closes and the callback is cleared,
      whichever stream it was forwarding to. */
  function Close(c: Channel, k: nat): (d: Channel)
    requires k < |c.streams|
    ensures Valid(d) && d.callback.None?
    ensures d.progress == c.progress && |d.streams| == |c.streams|
    ensures !d.streams[k].open && d.streams[k].frames == c.streams[k].frames
    ensures forall j :: 0 <= j < |c.streams| && j != k ==> d.streams[j] == c.streams[j]
  {
    Channel(c.progress, None, c.streams[k := Stream(c.streams[k].frames, false)])
  }

  /** The frames of several messages, in order. */
  function Frames(messages: seq<string>): (fs: seq<string>)
    ensures |fs| == |messages|
    ensures forall i :: 0 <= i < |messages| ==> fs[i] == Frame(messages[i])
  {
    if messages == [] then [] else Frames(messages[..|messages| - 1]) + [Frame(messages[|messages| - 1])]
  }

  class ProgressState {
    var progress: nat
    var progressCallback: Option<nat>
    var streams: seq<Stream>

    function State(): Channel
      reads this
    {
      Channel(progress, progressCallback, streams)
    }

    /** The module is loaded with `progress = 0`, no callback and no stream. */
    constructor ()
      ensures State() == Channel(0, None, []) && Valid(State())
    {
      progress, progressCallback, streams := 0, None, [];
    }

    method SendProgressUpdate(message: string)
      requires Valid(State())
      modifies this
      ensures State() == Send(old(State()), message)
    {
      progress := NextProgress(progress, message);
      if progressCallback.Some? {
        var k := progressCallback.value;
        streams := streams[k := Stream(streams[k].frames + [Frame(message)], true)];
      }
    }

    /** `GET`: opens stream number `k`. */
    method Get() returns (k: nat)
      modifies this
      ensures k == |old(streams)|
      ensures State() == Open(old(State()))
    {
      k := |streams|;
      progressCallback := Some(k);
      streams := streams + [Stream([StartFrame], true)];
    }

    /** The runtime cancels stream `k` (the client went away). */
    method CancelStream(k: nat)
      requires k < |streams|
      modifies this
      ensures State() == Close(old(State()), k)
    {
      progressCallback := None;
      streams := streams[k := Stream(streams[k].frames, false)];
    }
  }

  /** While stream `k` is subscribed, a run of updates appends exactly their
      frames to it, in order, and touches no other stream. */
  lemma {:induction false} SendAllForwards(c: Channel, messages: seq<string>)
    requires Valid(c)
    ensures SendAll(c, messages).callback == c.callback
    ensures |SendAll(c, messages).streams| == |c.streams|
    ensures forall j :: 0 <= j < |c.streams| && c.callback != Some(j) ==>
              SendAll(c, messages).streams[j] == c.streams[j]
    ensures c.callback.Some? ==>
              SendAll(c, messages).streams[c.callback.value].frames ==
              c.streams[c.callback.value].frames + Frames(messages)
  {
    if messages != [] {
      SendAllForwards(c, messages[..|messages| - 1]);
    }
  }

  /** Opening a stream then sending: the new stream holds the start frame
      followed by every message; every earlier stream is left as it was. */
  lemma OpenThenSend(c: Channel, messages: seq<string>)
    ensures var d := SendAll(Open(c), messages);
      && |d.streams| == |c.streams| + 1
      && d.callback == Some(|c.streams|)
      && d.streams[|c.streams|].frames == [StartFrame] + Frames(messages)
      && d.streams[..|c.streams|] == c.streams
  {
    SendAllForwards(Open(c), messages);
    var d := SendAll(Open(c), messages);
    assert forall j :: 0 <= j < |c.streams| ==> d.streams[j] == Open(c).streams[j];
  }

  /** The text after the last `(` of `s`, or all of `s` when it has none. */
  function AfterLastOpen(s: string): (t: string)
    ensures |t| <= |s| && t == s[|s| - |t|..]
    ensures '(' !in t
    ensures |t| < |s| ==> s[|s| - |t| - 1] == '('
  {
    if s == [] then []
    else if s[|s| - 1] == '(' then []
    else AfterLastOpen(s[..|s| - 1]) + [s[|s| - 1]]
  }

  /** The progress value as evidently intended: the number in the final
      parenthesised part of the message (the percentage of the scraper's
      messages), and the previous value when that part holds no digit. */
  function PercentProgress(progress: nat, message: string): nat {
    var digits := Digits(AfterLastOpen(message));
    if digits == [] then progress else Value(digits)
  }

  /** `AfterLastOpen` finds the text after an explicit last `(`. */
  lemma {:induction false} AfterLastOpenConcat(a: string, b: string)
    requires a != [] && a[|a| - 1] == '(' && '(' !in b
    ensures AfterLastOpen(a + b) == b
  {
    if b == [] {
      assert a + b == a;
    } else {
      var b' := b[..|b| - 1];
      DropLastOfConcat(a, b);
      AfterLastOpenConcat(a, b');
      assert b == b' + [b[|b| - 1]];
    }
  }

  lemma DropLastOfConcat(a: string, b: string)
    requires b != []
    ensures (a + b)[..|a + b| - 1] == a + b[..|b| - 1]
    ensures (a + b)[|a + b| - 1] == b[|b| - 1]
  {
  }

  /** Once progress is non-zero it never returns to zero. */
  lemma ProgressStaysPositive(progress: nat, message: string)
    requires progress > 0
    ensures NextProgress(progress, message) > 0
  {
  }

  /** Reading one event back per the event-stream format: a frame is a single
      line ending in a blank line; a `data:` field's value drops one leading space. */
  function DecodeFrame(f: string): Option<string> {
    if |f| < 2 || f[|f| - 2..] != "\n\n" then None
    else
      var line := f[..|f| - 2];
      if '\n' in line || '\r' in line || |line| < 5 || line[..5] != "data:" then None
      else if |line| > 5 && line[5] == ' ' then Some(line[6..])
      else Some(line[5..])
  }

  /** A message without line breaks travels intact in its frame. */
  lemma FrameRoundTrip(message: string)
    requires '\n' !in message && '\r' !in message
    ensures DecodeFrame(Frame(message)) == Some(message)
  {
    var f := Frame(message);
    assert f[..|f| - 2] == "data: " + message;
    assert f[|f| - 2..] == "\n\n";
  }
}
