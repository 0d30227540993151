/** The byte-stream face of a connection: `poll_read`, `poll_write` and whole messages, on the
    stream's ends of the two channels it shares with its actor. */
module StreamSpec {
  import opened Word
  import opened Protocol
  import opened EngineSpec
  import opened ActorSpec

  /** `pushed` is every message put on the channel, in order; `reported` what a caller that goes by
      the counts `poll_write` returns has written; `pulled` every message taken off the other
      channel; `read` the bytes handed to the application. */
  datatype Stream = Stream(
    mss: nat, maxMsg: nat, readBuf: Bytes, pendingWrite: Option<Bytes>, closed: bool,
    pushed: seq<Bytes>, reported: Bytes, pulled: seq<Bytes>, read: Bytes)

  datatype Write = WritePending | Wrote(n: nat) | BrokenPipe

  datatype Read = ReadPending | Got(data: Bytes)

  datatype Submission = Waits | Submitted | TooLong | Closed

  function NewStream(cfg: Config): Stream {
    Stream(Mss(cfg), Mss(cfg) * MaxFragments(cfg), [], None, false, [], [], [], [])
  }

  function Push(st: Stream, chunk: Bytes): Stream {
    st.(pushed := st.pushed + [chunk], pendingWrite := None)
  }

  /** Polls the parked write: `buf` is the caller's buffer, of which it takes the count to speak. */
  function PollPending(st: Stream, chan: seq<Bytes>, actorGone: bool, buf: Bytes): (Stream, seq<Bytes>, Write)
    requires st.pendingWrite.Some?
  {
    var chunk := st.pendingWrite.value;
    if actorGone then (st.(pendingWrite := None), chan, BrokenPipe)
    else if |chan| < SEND_CAPACITY then
      (Push(st, chunk).(reported := st.reported + buf[..Min(|chunk|, |buf|)]), chan + [chunk], Wrote(|chunk|))
    else (st, chan, WritePending)
  }

  /** `poll_write`: at most one segment's worth, parked when the channel is full. */
  function PollWrite(st: Stream, chan: seq<Bytes>, actorGone: bool, buf: Bytes): (Stream, seq<Bytes>, Write) {
    if st.closed then (st, chan, BrokenPipe)
    else if st.pendingWrite.Some? then PollPending(st, chan, actorGone, buf)
    else
      var chunk := buf[..Min(|buf|, st.mss)];
      if actorGone then (st, chan, BrokenPipe)
      else PollPending(st.(pendingWrite := Some(chunk)), chan, actorGone, buf)
  }

  /** `send`: one whole message, refused if it is longer than the engine takes. */
  function SendMessage(st: Stream, chan: seq<Bytes>, actorGone: bool, msg: Bytes): (Stream, seq<Bytes>, Submission) {
    if st.closed then (st, chan, Closed)
    else if |msg| > st.maxMsg then (st, chan, TooLong)
    else if actorGone then (st, chan, Closed)
    else if |chan| < SEND_CAPACITY then
      (st.(pushed := st.pushed + [msg], reported := st.reported + msg), chan + [msg], Submitted)
    else (st, chan, Waits)
  }

  function CopyOut(st: Stream, room: nat): (Stream, Read) {
    var n := Min(room, |st.readBuf|);
    (st.(readBuf := st.readBuf[n..], read := st.read + st.readBuf[..n]), Got(st.readBuf[..n]))
  }

  /** `poll_read` into `room` bytes: left-over bytes first, then the next message. Reading no bytes
      into a non-empty buffer means the end of the stream. */
  function PollRead(st: Stream, chan: seq<Bytes>, actorGone: bool, room: nat): (Stream, seq<Bytes>, Read) {
    if st.readBuf != [] then
      var (st1, r) := CopyOut(st, room);
      (st1, chan, r)
    else if st.closed then (st, chan, Got([]))
    else if chan != [] then
      var (st1, r) := CopyOut(st.(readBuf := chan[0], pulled := st.pulled + [chan[0]]), room);
      (st1, chan[1..], r)
    else (st, chan, if actorGone then Got([]) else ReadPending)
  }

  /** `recv`: the next message, past the bytes `poll_read` has left over. */
  function ReceiveMessage(st: Stream, chan: seq<Bytes>, actorGone: bool): (Stream, seq<Bytes>, Read) {
    if st.closed then (st, chan, Got([]))
    else if chan != [] then
      (st.(pulled := st.pulled + [chan[0]], read := st.read + chan[0]), chan[1..], Got(chan[0]))
    else (st, chan, if actorGone then Got([]) else ReadPending)
  }
}
