/** contrib/emscripten: `_ReadStream` and the worker hand one shared buffer to and fro. */
module ReadStream {
  import opened Bytes

  const SUCCESS_EOF := -2
  const ERROR_TIMEOUT := -3

  datatype Message = GetMore | CloseIt

  /** The reader: outside a call, or at a point of `readinto` for a buffer of `n` bytes. */
  datatype Reader =
    | Resting
    | Starting(n: nat)    // nothing left to hand out: about to reset the length word
    | Posting(n: nat)
    | Waiting(n: nat)     // in Atomics.wait
    | Woken(n: nat)
    | Copying(n: nat)
    | Closed

  /** The worker: between messages, or at a point of the getMore handler, with its local variables. */
  datatype Worker =
    | Listening
    | Handling
    | Fetching
    | Sending(value: bytes, offset: nat)
    | Storing(value: bytes, offset: nat, sent: nat)
    | Updating(offset: nat)

  /** The worker's entry for the stream. */
  datatype Connection = Connection(value: Option<bytes>, offset: nat)

  /** `shared` and `word` are the shared buffer; `chunks[fetched..]` is what fetch has not returned yet; `ended` records
      that a call for at least one byte returned none. */
  datatype System = System(
    reader: Reader, readPos: nat, readLen: nat, isLive: bool,
    mailbox: seq<Message>,
    word: int, shared: bytes,
    worker: Worker, conn: Option<Connection>,
    chunks: seq<bytes>, fetched: nat,
    delivered: bytes, ended: bool)

  datatype Step = Call(n: nat) | CloseStream | ReaderStep | WorkerStep

  function Min(a: int, b: int): int {
    if a < b then a else b
  }

  function Init(chunks: seq<bytes>, shared: bytes): System {
    System(Resting, 0, 0, true, [], -1, shared, Listening, Some(Connection(None, 0)), chunks, 0, [], false)
  }

  predicate Enabled(s: System, step: Step) {
    match step
    case Call(_) => s.reader.Resting?
    case CloseStream => s.reader.Resting?
    case ReaderStep =>
      (match s.reader
       case Resting => false
       case Closed => false
       case Waiting(_) => s.word != ERROR_TIMEOUT
       case _ => true)
    case WorkerStep => s.worker.Listening? ==> s.mailbox != []
  }

  function Next(s: System, step: Step): (u: System)
    ensures !step.WorkerStep? ==> UntouchedByReader(s, u)
  {
    match step
    case Call(n) => s.(reader := if s.readLen == 0 then Starting(n) else Copying(n))
    case CloseStream => s.(reader := Closed, readPos := 0, readLen := 0, isLive := false,
                           mailbox := if s.isLive then s.mailbox + [CloseIt] else s.mailbox)
    case ReaderStep => NextReader(s)
    case WorkerStep => NextWorker(s)
  }

  /** What only the worker changes. */
  predicate UntouchedByReader(s: System, u: System) {
    && u.worker == s.worker && u.chunks == s.chunks && u.fetched == s.fetched && u.shared == s.shared
    && u.conn == s.conn
  }

  /** What only the reader changes. */
  predicate UntouchedByWorker(s: System, u: System) {
    && u.reader == s.reader && u.readPos == s.readPos && u.readLen == s.readLen && u.delivered == s.delivered
    && u.ended == s.ended && u.chunks == s.chunks
  }

  function NextReader(s: System): (u: System)
    ensures UntouchedByReader(s, u)
  {
    match s.reader
    case Resting => s
    case Closed => s
    case Starting(n) => s.(reader := Posting(n), word := ERROR_TIMEOUT)
    case Posting(n) => s.(reader := Waiting(n), mailbox := s.mailbox + [GetMore])
    case Waiting(n) => s.(reader := Woken(n))
    case Woken(n) =>
      if s.word > 0 then s.(reader := Copying(n), readLen := s.word, readPos := 0)
      else s.(reader := Closed, readLen := 0, readPos := 0, isLive := false, ended := s.ended || n > 0)
    case Copying(n) =>
      var taken := Min(s.readLen, n);
      s.(reader := Resting, readLen := s.readLen - taken, readPos := s.readPos + taken,
         delivered := s.delivered + Slice(s.shared, s.readPos, s.readPos + taken),
         ended := s.ended || (n > 0 && taken == 0))
  }

  /** `subarray`, which clips at the end. */
  function Slice(b: bytes, from: nat, to: int): bytes {
    if from <= to <= |b| then b[from..to] else if from <= |b| < to then b[from..] else []
  }

  function NextWorker(s: System): (u: System)
    ensures UntouchedByWorker(s, u)
    ensures u.fetched == s.fetched || (s.worker.Fetching? && u.fetched == s.fetched + 1 <= |s.chunks|)
    ensures u.shared == s.shared || s.worker.Sending?
    ensures u.word == s.word || s.worker.Storing? || s.worker.Fetching?
  {
    match s.worker
    case Listening =>
      if s.mailbox == [] then s
      else if s.mailbox[0] == CloseIt then s.(conn := None, mailbox := s.mailbox[1..])
      else s.(worker := Handling, mailbox := s.mailbox[1..])
    case Handling =>
      if s.conn.None? then s.(worker := Listening) // the handler throws
      else
        var c := s.conn.value;
        s.(worker := if c.value.None? || c.offset >= |c.value.value| then Fetching
                     else Sending(c.value.value, c.offset))
    case Fetching =>
      if s.fetched >= |s.chunks| then s.(worker := Listening, conn := None, word := SUCCESS_EOF)
      else
        var chunk := s.chunks[s.fetched];
        s.(worker := Sending(chunk, 0), fetched := s.fetched + 1,
           conn := if s.conn.Some? then Some(s.conn.value.(value := Some(chunk))) else None)
    case Sending(value, offset) =>
      var n := if |value| - offset > |s.shared| then |s.shared| else if |value| >= offset then |value| - offset else 0;
      s.(worker := Storing(value, offset, n), shared := Slice(value, offset, offset + n) + s.shared[n..])
    case Storing(value, offset, n) => s.(worker := Updating(offset + n), word := n)
    case Updating(offset) =>
      s.(worker := Listening, conn := if s.conn.Some? then Some(s.conn.value.(offset := offset)) else None)
  }

  // ---- whose turn it is --------------------------------------------------------------------------

  predicate Idle(w: Worker) {
    w.Listening? || w.Updating?
  }

  /** The worker has written its answer and the reader has not looked at it. */
  predicate Answered(s: System) {
    && Idle(s.worker) && s.mailbox == [] && s.readLen == 0
    && (s.word == SUCCESS_EOF || 0 <= s.word <= |s.shared|)
    && (if s.word == SUCCESS_EOF then s.worker.Listening? && s.fetched == |s.chunks| else s.conn.Some?)
  }

  /** No request is under way. */
  predicate Quiet(s: System) {
    Idle(s.worker) && s.mailbox == [] && s.conn.Some? && s.readPos + s.readLen <= |s.shared|
  }

  /** Request, answer and hand-out follow one another; the worker touches the buffer only between the first two. */
  predicate Turns(s: System) {
    && 0 < |s.shared| && s.fetched <= |s.chunks|
    && match s.reader
       case Resting => Quiet(s)
       case Copying(_) => Quiet(s) && 0 < s.readLen
       case Starting(_) => Quiet(s) && s.readLen == 0
       case Posting(_) => Quiet(s) && s.readLen == 0 && s.word == ERROR_TIMEOUT
       case Waiting(_) =>
         if s.word == ERROR_TIMEOUT
         then s.readLen == 0 && s.conn.Some? && s.mailbox == (if Idle(s.worker) then [GetMore] else [])
         else Answered(s)
       case Woken(_) => Answered(s)
       case Closed => Idle(s.worker) && (s.mailbox == [] || s.mailbox == [CloseIt])
  }

  // ---- where the bytes are -----------------------------------------------------------------------

  /** The chunk being handed over and how much of it has been. */
  function Current(s: System): (bytes, nat) {
    match s.worker
    case Sending(value, offset) => (value, offset)
    case Storing(value, offset, n) => (value, offset + n)
    case Fetching => ([], 0)
    case Updating(offset) => if s.conn.Some? && s.conn.value.value.Some? then (s.conn.value.value.value, offset)
        else ([], 0)
    case _ => if s.conn.Some? && s.conn.value.value.Some? then (s.conn.value.value.value, s.conn.value.offset)
        else ([], 0)
  }

  /** What the worker still has to send of the chunks it fetched. */
  function Unsent(s: System): bytes {
    var (value, offset) := Current(s);
    if offset <= |value| then value[offset..] else []
  }

  /** The bytes in the shared buffer that are for the reader. */
  function Unread(s: System): bytes {
    if s.worker.Storing? then Slice(s.shared, 0, s.worker.sent)
    else if s.reader.Waiting? || s.reader.Woken? then (if s.word > 0 then Slice(s.shared, 0, s.word) else [])
    else Slice(s.shared, s.readPos, s.readPos + s.readLen)
  }

  /** An empty chunk has been fetched. */
  predicate MetEmpty(s: System) {
    0 < s.fetched <= |s.chunks| && s.chunks[s.fetched - 1] == []
  }

  ghost predicate Accounted(s: System) {
    && s.fetched <= |s.chunks|
    && s.delivered + Unread(s) + Unsent(s) == Flatten(s.chunks[..s.fetched])
  }

  /** The worker's variables fit each other. */
  predicate Fits(s: System) {
    && s.fetched <= |s.chunks|
    && (s.conn.Some? ==> s.conn.value.value == (if s.fetched > 0 then Some(s.chunks[s.fetched - 1]) else None))
    && (s.conn.Some? && s.fetched > 0 && (s.worker.Listening? || s.worker.Handling?) ==>
          s.conn.value.offset <= |s.chunks[s.fetched - 1]|)
    && match s.worker
       case Sending(value, offset) =>
         && s.fetched > 0 && value == s.chunks[s.fetched - 1] && (offset < |value| || (value == [] && offset == 0))
       case Storing(value, offset, n) =>
         && s.fetched > 0 && value == s.chunks[s.fetched - 1] && offset + n <= |value| && n <= |s.shared|
         && (n == 0 <==> value == [])
       case Updating(offset) => s.fetched > 0 && offset <= |s.chunks[s.fetched - 1]|
       case Fetching => true
       case _ => true
  }

  /** The chunks before the first empty one. */
  function UpToEmpty(chunks: seq<bytes>): seq<bytes> {
    if chunks == [] || chunks[0] == [] then [] else [chunks[0]] + UpToEmpty(chunks[1..])
  }

  /** What an empty chunk or the end of the chunks leads to. */
  predicate Ends(s: System) {
    && s.fetched <= |s.chunks|
    && (forall i :: 0 <= i < s.fetched - 1 ==> s.chunks[i] != [])
    && (MetEmpty(s) ==> || s.worker.Sending? || s.worker.Storing? || s.reader.Closed?
                        || ((s.reader.Waiting? || s.reader.Woken?) && s.word == 0))
    && (s.worker.Fetching? ==> !MetEmpty(s) && Unsent(s) == [])
    && ((s.reader.Waiting? || s.reader.Woken?) && s.word == 0 ==> MetEmpty(s))
    && ((s.reader.Waiting? || s.reader.Woken?) && s.word == SUCCESS_EOF ==>
          !MetEmpty(s) && Unsent(s) == [] && s.fetched == |s.chunks|)
    && (s.ended ==> s.reader.Closed? && s.delivered == Flatten(UpToEmpty(s.chunks)))
  }

  ghost predicate Inv(s: System) {
    Turns(s) && Fits(s) && Ends(s) && (s.reader.Closed? || Accounted(s))
  }

  lemma ReaderKeepsTurns(s: System, step: Step)
    requires Turns(s) && Fits(s) && Enabled(s, step) && !step.WorkerStep?
    ensures Turns(Next(s, step)) && Fits(Next(s, step))
  {}

  lemma WorkerKeepsTurns(s: System)
    requires Turns(s) && Fits(s) && Enabled(s, WorkerStep)
    ensures Turns(NextWorker(s))
  {}

  lemma WorkerKeepsFits(s: System)
    requires Turns(s) && Fits(s) && Enabled(s, WorkerStep)
    ensures Fits(NextWorker(s))
  {}

  lemma SliceSplit(b: bytes, from: nat, taken: nat, len: nat)
    requires from + len <= |b| && taken <= len
    ensures Slice(b, from, from + len) == Slice(b, from, from + taken)
            + Slice(b, from + taken, from + taken + (len - taken))
  {}

  lemma EmptySlice(b: bytes, from: nat)
    ensures Slice(b, from, from) == []
  {}

  lemma CopyMoves(s: System)
    requires s.reader.Copying? && !s.worker.Storing? && s.readPos + s.readLen <= |s.shared|
    ensures NextReader(s).delivered + Unread(NextReader(s)) == s.delivered + Unread(s)
  {
    var u := NextReader(s);
    var taken := Min(s.readLen, s.reader.n);
    SliceSplit(s.shared, s.readPos, taken, s.readLen);
    hide Slice;
    assert u.delivered + Unread(u) == s.delivered + (Slice(s.shared, s.readPos, s.readPos + taken) + Unread(u));
  }

  lemma SameUnsent(s: System, u: System)
    requires UntouchedByReader(s, u)
    ensures Unsent(u) == Unsent(s)
  {}

  lemma UnreadStays(s: System, step: Step)
    requires Turns(s) && Enabled(s, step) && !step.WorkerStep? && !Next(s, step).reader.Closed?
    requires !(s.reader.Copying? && step.ReaderStep?)
    ensures var u := Next(s, step);
            u.delivered == s.delivered && Unread(u) == Unread(s)
  {
    EmptySlice(s.shared, s.readPos);
    hide Slice, Min, Answered;
  }

  /** The reader only moves bytes from the buffer to the caller. */
  lemma ReaderMoves(s: System, step: Step)
    requires Turns(s) && Enabled(s, step) && !step.WorkerStep? && !Next(s, step).reader.Closed?
    ensures var u := Next(s, step);
            u.delivered + Unread(u) == s.delivered + Unread(s) && Unsent(u) == Unsent(s)
  {
    SameUnsent(s, Next(s, step));
    hide Unsent, Slice, Unread, Min, Answered;
    if s.reader.Copying? && step.ReaderStep? {
      CopyMoves(s);
    } else {
      UnreadStays(s, step);
    }
  }

  lemma SendMoves(s: System)
    requires Turns(s) && Fits(s) && s.worker.Sending? && !s.reader.Closed?
    ensures Unread(NextWorker(s)) + Unsent(NextWorker(s)) == Unread(s) + Unsent(s)
  {
    var u := NextWorker(s);
    var value, offset, n := s.worker.value, s.worker.offset, u.worker.sent;
    assert Unread(s) == [] && Unsent(s) == value[offset..];
    assert Unread(u) == value[offset..offset + n] && Unsent(u) == value[offset + n..];
    assert value[offset..] == value[offset..offset + n] + value[offset + n..];
  }

  lemma FetchMoves(s: System)
    requires Turns(s) && Fits(s) && Ends(s) && s.worker.Fetching? && !s.reader.Closed?
    ensures var u := NextWorker(s);
            Unread(u) == Unread(s) == [] && Unsent(s) == []
            && Unsent(u) == if u.fetched == s.fetched then [] else s.chunks[s.fetched]
  {
    hide Slice;
  }

  lemma StoreMoves(s: System)
    requires Turns(s) && Fits(s) && s.worker.Storing? && !s.reader.Closed?
    ensures Unread(NextWorker(s)) == Unread(s) && Unsent(NextWorker(s)) == Unsent(s)
  {}

  lemma SameUnread(s: System, u: System)
    requires UntouchedByWorker(s, u) && u.shared == s.shared && u.word == s.word && !s.worker.Storing?
             && !u.worker.Storing?
    ensures Unread(u) == Unread(s)
  {
    hide Slice;
  }

  lemma OtherMoves(s: System)
    requires Turns(s) && Fits(s) && !s.reader.Closed? && Enabled(s, WorkerStep)
    requires s.worker.Listening? || s.worker.Handling? || s.worker.Updating?
    ensures Unread(NextWorker(s)) == Unread(s) && Unsent(NextWorker(s)) == Unsent(s)
  {
    SameUnread(s, NextWorker(s));
    hide Unread, Answered;
    match s.worker
    case Listening =>
      assert NextWorker(s) == s.(worker := Handling, mailbox := s.mailbox[1..]);
    case Handling =>
    case Updating(_) =>
  }

  /** The worker only moves bytes from the current chunk to the buffer, or fetches the next chunk. */
  lemma WorkerMoves(s: System)
    requires Turns(s) && Fits(s) && Ends(s) && Enabled(s, WorkerStep) && !s.reader.Closed?
    ensures var u := NextWorker(s);
            && (u.fetched == s.fetched ==> Unread(u) + Unsent(u) == Unread(s) + Unsent(s))
            && (u.fetched != s.fetched ==>
                  Unread(s) == Unread(u) == [] && Unsent(s) == [] && Unsent(u) == s.chunks[s.fetched])
  {
    match s.worker
    case Sending(_, _) => SendMoves(s);
    case Storing(_, _, _) => StoreMoves(s); hide NextWorker, Turns, Fits, Ends, Unread, Unsent;
    case Fetching => FetchMoves(s); hide NextWorker, Turns, Fits, Ends, Unread, Unsent;
    case _ => OtherMoves(s); hide NextWorker, Turns, Fits, Ends, Unread, Unsent;
  }

  lemma AccountsStay(s: System, step: Step)
    requires Inv(s) && Enabled(s, step) && !s.reader.Closed? && !Next(s, step).reader.Closed?
    ensures Accounted(Next(s, step))
  {
    var u := Next(s, step);
    hide NextWorker, NextReader, Unread, Unsent, Turns, Fits, Ends;
    if step.WorkerStep? {
      WorkerMoves(s);
      if u.fetched == s.fetched {
        assert s.delivered + Unread(s) + Unsent(s) == s.delivered + (Unread(s) + Unsent(s));
        assert u.delivered + Unread(u) + Unsent(u) == u.delivered + (Unread(u) + Unsent(u));
      } else {
        FlattenSplit(s.chunks, s.fetched);
        assert s.delivered + [] + [] == s.delivered;
      }
    } else {
      ReaderMoves(s, step);
    }
  }

  // ---- the end -----------------------------------------------------------------------------------

  lemma {:induction false} UpToEmptyIs(chunks: seq<bytes>, k: nat)
    requires k <= |chunks| && (k < |chunks| ==> chunks[k] == []) && forall i :: 0 <= i < k ==> chunks[i] != []
    ensures UpToEmpty(chunks) == chunks[..k]
  {
    if k == 0 {
    } else {
      UpToEmptyIs(chunks[1..], k - 1);
      assert chunks[..k] == [chunks[0]] + chunks[1..][..k - 1];
    }
  }

  lemma AllDelivered(s: System)
    requires Inv(s) && s.reader.Woken? && NextReader(s).reader.Closed?
    ensures s.delivered == Flatten(s.chunks[..s.fetched])
    ensures s.word == 0 || (s.word == SUCCESS_EOF && s.fetched == |s.chunks| && !MetEmpty(s))
  {
    assert Unread(s) == [];
    assert Unsent(s) == [];
    hide Turns, Fits, Ends, Unread, Unsent, Flatten;
    assert s.delivered + [] + [] == s.delivered;
  }

  lemma EmptyAt(chunks: seq<bytes>, k: nat)
    requires k < |chunks| && chunks[k] == []
    ensures Flatten(chunks[..k + 1]) == Flatten(chunks[..k])
  {
    FlattenSplit(chunks, k);
    hide Flatten;
  }

  lemma ReaderEnds(s: System)
    requires Inv(s) && s.reader.Woken? && NextReader(s).reader.Closed?
    ensures s.delivered == Flatten(UpToEmpty(s.chunks))
  {
    AllDelivered(s);
    hide Turns, Fits, Unread, Unsent, NextReader, Accounted;
    if s.word == 0 {
      EmptyAt(s.chunks, s.fetched - 1);
      UpToEmptyIs(s.chunks, s.fetched - 1);
    } else {
      assert s.chunks[..s.fetched] == s.chunks;
      UpToEmptyIs(s.chunks, s.fetched);
    }
  }

  lemma ReaderKeepsEnds(s: System, step: Step)
    requires Inv(s) && Enabled(s, step) && !step.WorkerStep?
    ensures Ends(Next(s, step))
  {
    hide Accounted, Unread, Slice, Flatten, UpToEmpty;
    if s.reader.Woken? && step.ReaderStep? && NextReader(s).reader.Closed? {
      ReaderEnds(s);
    }
  }

  lemma WorkerKeepsEnds(s: System)
    requires Inv(s) && Enabled(s, WorkerStep)
    ensures Ends(NextWorker(s))
  {
    hide Accounted, Unread, Slice, Flatten, UpToEmpty;
  }

  lemma StepKeeps(s: System, step: Step)
    requires Inv(s) && Enabled(s, step)
    ensures Inv(Next(s, step))
  {
    if step.WorkerStep? {
      WorkerKeepsTurns(s);
      WorkerKeepsFits(s);
      WorkerKeepsEnds(s);
    } else {
      ReaderKeepsTurns(s, step);
      ReaderKeepsEnds(s, step);
    }
    if !s.reader.Closed? && !Next(s, step).reader.Closed? {
      AccountsStay(s, step);
    }
    hide Turns, Fits, Ends, Accounted, NextReader, NextWorker;
  }

  // ---- every run ---------------------------------------------------------------------------------

  predicate Runs(s: System, steps: seq<Step>)
    decreases |steps|
  {
    steps != [] ==> Enabled(s, steps[0]) && Runs(Next(s, steps[0]), steps[1..])
  }

  function After(s: System, steps: seq<Step>): System
    requires Runs(s, steps)
    decreases |steps|
  {
    if steps == [] then s else After(Next(s, steps[0]), steps[1..])
  }

  lemma {:induction false} RunKeeps(s: System, steps: seq<Step>)
    requires Inv(s) && Runs(s, steps)
    ensures Inv(After(s, steps)) && After(s, steps).chunks == s.chunks
    decreases |steps|
  {
    if steps == [] {
    } else {
      StepKeeps(s, steps[0]);
      assert Next(s, steps[0]).chunks == s.chunks;
      hide Inv, Enabled, Next;
      RunKeeps(Next(s, steps[0]), steps[1..]);
    }
  }

  /** At every moment of every run: until the stream is closed, what was delivered, what is unread in the buffer, what
      the worker has left and what is not fetched make up the body; the worker is about to write the buffer only while
      the reader waits with nothing left in it; and a call for at least one byte returned none only at the first empty
      chunk or at the end, with everything before it delivered. */
  lemma EveryRun(chunks: seq<bytes>, shared: bytes, steps: seq<Step>)
    requires shared != [] && Runs(Init(chunks, shared), steps)
    ensures var s := After(Init(chunks, shared), steps);
            && s.fetched <= |chunks|
            && (!s.reader.Closed? ==>
                s.delivered + Unread(s) + Unsent(s) + Flatten(chunks[s.fetched..]) == Flatten(chunks))
            && (s.worker.Sending? ==> s.reader.Waiting? && s.readLen == 0)
            && (s.ended ==> s.delivered == Flatten(UpToEmpty(chunks)))
  {
    var i := Init(chunks, shared);
    assert Unread(i) == [] && Unsent(i) == [] && Inv(i);
    hide Unread, Unsent, Runs, After, Inv;
    RunKeeps(i, steps);
    InvSays(After(i, steps));
  }

  lemma InvSays(s: System)
    requires Inv(s)
    ensures s.fetched <= |s.chunks|
    ensures !s.reader.Closed? ==>
            s.delivered + Unread(s) + Unsent(s) + Flatten(s.chunks[s.fetched..]) == Flatten(s.chunks)
    ensures s.worker.Sending? ==> s.reader.Waiting? && s.readLen == 0
    ensures s.ended ==> s.delivered == Flatten(UpToEmpty(s.chunks))
  {
    if !s.reader.Closed? {
      assert s.chunks == s.chunks[..s.fetched] + s.chunks[s.fetched..];
      FlattenAppend(s.chunks[..s.fetched], s.chunks[s.fetched..]);
    }
    hide Unread, Unsent;
  }

  // ---- a body cut short --------------------------------------------------------------------------

  const EARLY := Init([[], [5]], [0])

  lemma StepFirst(s: System, step: Step, rest: seq<Step>)
    requires Enabled(s, step) && Runs(Next(s, step), rest)
    ensures Runs(s, [step] + rest) && After(s, [step] + rest) == After(Next(s, step), rest)
  {
    hide Enabled, Next;
    assert ([step] + rest)[1..] == rest;
  }

  /** The worker has fetched an empty chunk: the waiting reader is told zero and ends. */
  lemma RepliesZero(s: System) returns (steps: seq<Step>)
    requires s.reader == Waiting(1) && s.worker == Storing([], 0, 0)
    ensures Runs(s, steps) && After(s, steps).ended && After(s, steps).delivered == s.delivered
  {
    var told := NextWorker(s);
    var woken := NextReader(told);
    var closed := NextReader(woken);
    assert woken.word == 0 && woken.reader == Woken(1) && closed.ended && closed.delivered == s.delivered;
    steps := [ReaderStep];
    assert [ReaderStep][1..] == [] && Runs(closed, []);
    assert Runs(woken, steps) && After(woken, steps) == closed;
    hide Runs, After, NextReader, NextWorker;
    StepFirst(told, ReaderStep, steps);
    steps := [ReaderStep] + steps;
    StepFirst(s, WorkerStep, steps);
    steps := [WorkerStep] + steps;
  }

  /** The worker is asked, has nothing left of an earlier chunk and fetches an empty one. */
  lemma FetchesNothing(s: System) returns (steps: seq<Step>)
    requires s.reader == Waiting(1) && s.worker == Listening && s.mailbox == [GetMore]
             && s.conn == Some(Connection(None, 0))
    requires s.fetched < |s.chunks| && s.chunks[s.fetched] == []
    ensures Runs(s, steps) && After(s, steps).ended && After(s, steps).delivered == s.delivered
  {
    var handling := NextWorker(s);
    var fetching := NextWorker(handling);
    var sending := NextWorker(fetching);
    var storing := NextWorker(sending);
    assert handling.worker.Handling? && fetching.worker.Fetching? && sending.worker == Sending([], 0)
           && storing.worker == Storing([], 0, 0);
    steps := RepliesZero(storing);
    hide Runs, After, NextReader, NextWorker;
    StepFirst(sending, WorkerStep, steps);
    steps := [WorkerStep] + steps;
    StepFirst(fetching, WorkerStep, steps);
    steps := [WorkerStep] + steps;
    StepFirst(handling, WorkerStep, steps);
    steps := [WorkerStep] + steps;
    StepFirst(s, WorkerStep, steps);
    steps := [WorkerStep] + steps;
  }

  /** A run in which a call for one byte returns none although the body has one: its first chunk is empty. */
  lemma EndsEarly() returns (steps: seq<Step>)
    ensures Runs(EARLY, steps) && EARLY.chunks == [[], [5]]
    ensures After(EARLY, steps).ended && After(EARLY, steps).delivered == [] != Flatten(EARLY.chunks)
  {
    assert [[], [5]][1..] == [[5]] && [[5]][1..] == [];
    hide Runs, After;
    var starting := Next(EARLY, Call(1));
    var posting := NextReader(starting);
    steps := FetchesNothing(NextReader(posting));
    StepFirst(posting, ReaderStep, steps);
    steps := [ReaderStep] + steps;
    StepFirst(starting, ReaderStep, steps);
    steps := [ReaderStep] + steps;
    StepFirst(EARLY, Call(1), steps);
    steps := [Call(1)] + steps;
  }

  /** What precedes the first empty chunk is the whole body exactly when nothing but empty chunks follow that one. */
  lemma {:induction false} CompleteIff(chunks: seq<bytes>)
    ensures Flatten(UpToEmpty(chunks)) == Flatten(chunks)
            <==> forall i, j :: 0 <= i < j < |chunks| && chunks[i] == [] ==> chunks[j] == []
  {
    if chunks == [] {
    } else if chunks[0] == [] {
      assert [] + Flatten(chunks[1..]) == Flatten(chunks[1..]);
      FlattenEmptyIff(chunks[1..]);
      assert forall j :: 0 < j < |chunks| ==> chunks[j] == chunks[1..][j - 1];
    } else {
      var rest := chunks[1..];
      CompleteIff(rest);
      assert Flatten(UpToEmpty(chunks)) == chunks[0] + Flatten(UpToEmpty(rest)) by {
        assert ([chunks[0]] + UpToEmpty(rest))[1..] == UpToEmpty(rest);
      }
      SamePrefix(chunks[0], Flatten(UpToEmpty(rest)), Flatten(rest));
      assert forall j :: 0 < j < |chunks| ==> chunks[j] == rest[j - 1];
      assert forall j :: 0 <= j < |rest| ==> rest[j] == chunks[j + 1];
      hide Flatten, UpToEmpty;
    }
  }

  lemma SamePrefix(p: bytes, a: bytes, b: bytes)
    ensures p + a == p + b <==> a == b
  {
    assert (p + a)[|p|..] == a && (p + b)[|p|..] == b;
  }

  lemma {:induction false} FlattenEmptyIff(chunks: seq<bytes>)
    ensures Flatten(chunks) == [] <==> forall i :: 0 <= i < |chunks| ==> chunks[i] == []
  {
    if chunks == [] {
    } else {
      FlattenEmptyIff(chunks[1..]);
      assert forall j :: 0 < j < |chunks| ==> chunks[j] == chunks[1..][j - 1];
    }
  }

  // ---- every call returns ------------------------------------------------------------------------

  function ReaderRank(r: Reader): nat {
    match r
    case Starting(_) => 5
    case Posting(_) => 4
    case Waiting(_) => 3
    case Woken(_) => 2
    case Copying(_) => 1
    case _ => 0
  }

  function WorkerRank(w: Worker): nat {
    match w
    case Handling => 5
    case Fetching => 4
    case Sending(_, _) => 3
    case Storing(_, _, _) => 2
    case Updating(_) => 1
    case Listening => 0
  }

  function Rank(s: System): nat {
    100 * ReaderRank(s.reader) + 10 * |s.mailbox| + WorkerRank(s.worker)
  }

  lemma StepRanks(s: System, step: Step)
    requires Enabled(s, step) && (step.ReaderStep? || step.WorkerStep?)
    ensures Rank(Next(s, step)) < Rank(s)
  {}

  /** Inside a call one side can always go on, and they cannot go on forever: every call returns. */
  lemma {:induction false} CallReturns(s: System, steps: seq<Step>)
    requires Inv(s) && Runs(s, steps) && forall step :: step in steps ==> step.ReaderStep? || step.WorkerStep?
    ensures |steps| <= Rank(s)
    ensures !After(s, steps).reader.Resting? && !After(s, steps).reader.Closed? ==>
              Enabled(After(s, steps), ReaderStep) || Enabled(After(s, steps), WorkerStep)
    decreases |steps|
  {
    if steps == [] {
      hide Fits, Ends, Accounted;
    } else {
      StepKeeps(s, steps[0]);
      StepRanks(s, steps[0]);
      hide Inv, Enabled, Next, Rank;
      CallReturns(Next(s, steps[0]), steps[1..]);
    }
  }

  // ---- the objects -------------------------------------------------------------------------------

  lemma CutAt(b: bytes, from: nat, n: nat, tail: bytes)
    requires from + n <= |b|
    ensures b[from..] + tail == b[from..from + n] + (b[from + n..] + tail)
  {}

  lemma CutHead(b: bytes, n: nat, tail: bytes)
    ensures n <= |b| ==> b + tail == b[..n] + (b[n..] + tail)
  {}

  /** `set` at the start of a buffer. */
  method CopyInto(buffer: array<byte>, source: bytes)
    requires |source| <= buffer.Length
    modifies buffer
    ensures buffer[..|source|] == source && buffer[|source|..] == old(buffer[|source|..])
  {
    for i := 0 to |source|
      invariant buffer[..i] == source[..i]
      invariant buffer[|source|..] == old(buffer[|source|..])
    {
      buffer[i] := source[i];
    }
  }

  /** The worker's side of one stream: its entry in `connections` and what fetch has still to return. */
  class WorkerStream {
    const byteBuffer: array<byte>
    var word: int
    var live: bool
    var value: Option<bytes>
    var curOffset: nat
    var pending: seq<bytes>

    constructor (size: nat, chunks: seq<bytes>)
      requires size > 0
      ensures Valid() && live && pending == chunks && Left() == Flatten(chunks) && fresh(byteBuffer)
    {
      byteBuffer := new byte[size];
      word, live, value, curOffset, pending := -1, true, None, 0, chunks;
      new;
      assert [] + Flatten(chunks) == Flatten(chunks);
    }

    predicate Valid()
      reads this
    {
      byteBuffer.Length > 0 && (value.Some? ==> curOffset <= |value.value|)
    }

    function Rest(): bytes
      requires Valid()
      reads this
    {
      if live && value.Some? then value.value[curOffset..] else []
    }

    /** All that the reader has not been sent. */
    function Left(): bytes
      requires Valid()
      reads this
    {
      if live then Rest() + Flatten(pending) else []
    }

    lemma LeftIs()
      requires Valid() && live
      ensures value.Some? ==> Left() == value.value[curOffset..] + Flatten(pending)
      ensures Rest() == [] ==> Left() == Flatten(pending)
      ensures Rest() == [] <==> value.None? || curOffset >= |value.value|
    {
      hide Flatten;
      assert [] + Flatten(pending) == Flatten(pending);
    }

    /** Fetch another chunk, or note the end. */
    method FetchChunk()
      requires Valid() && live && Rest() == []
      modifies this`live, this`word, this`value, this`curOffset, this`pending
      ensures Valid() && live == (old(pending) != [])
      ensures old(pending) == [] ==> word == SUCCESS_EOF
      ensures old(pending) != [] ==> word == old(word) && value == Some(old(pending)[0]) && curOffset == 0
                                     && pending == old(pending)[1..] && Left() == old(Left())
    {
      LeftIs();
      if pending == [] {
        live, word := false, SUCCESS_EOF;
      } else {
        curOffset, value, pending := 0, Some(pending[0]), pending[1..];
        LeftIs();
        assert value.value[0..] == value.value;
        hide WorkerStream.Left;
      }
    }

    /** The getMore handler. */
    method GetMore()
      requires Valid() && live
      modifies this, byteBuffer
      ensures Valid() && live == (old(Rest()) != [] || old(pending) != [])
      ensures !live ==> word == SUCCESS_EOF
      ensures live ==> 0 <= word <= byteBuffer.Length && old(Left()) == byteBuffer[..word] + Left()
      ensures live ==> (word == 0 <==> old(Rest()) == [] && old(pending)[0] == [])
      ensures live ==> word == byteBuffer.Length || Rest() == []
    {
      LeftIs();
      if value.None? || curOffset >= |value.value| {
        FetchChunk();
        if !live {
          return;
        }
      }
      Send();
    }

    /** Copy as much of the chunk as fits and store its length. */
    method Send()
      requires Valid() && live && value.Some?
      modifies this`word, this`curOffset, byteBuffer
      ensures Valid() && 0 <= word <= byteBuffer.Length && old(Left()) == byteBuffer[..word] + Left()
      ensures word == 0 <==> old(curOffset) == |value.value|
      ensures word == byteBuffer.Length || Rest() == []
    {
      LeftIs();
      var chunk, from := value.value, curOffset;
      var curLen := |chunk| - from;
      if curLen > byteBuffer.Length {
        curLen := byteBuffer.Length;
      }
      CutAt(chunk, from, curLen, Flatten(pending));
      hide WorkerStream.Left, WorkerStream.Rest, Flatten;
      var piece := chunk[from..from + curLen];
      CopyInto(byteBuffer, piece);
      word := curLen;
      curOffset := from + curLen;
      LeftIs();
      assert byteBuffer[..word] == piece;
    }
  }

  datatype ReadResult = NoBuffer | Count(n: nat)

  class StreamReader {
    const worker: WorkerStream
    var readPos: nat
    var readLen: nat
    var open: bool

    constructor (worker: WorkerStream)
      requires worker.Valid() && worker.live
      ensures this.worker == worker && Valid() && open && Remaining() == worker.Left()
    {
      this.worker, readPos, readLen, open := worker, 0, 0, true;
    }

    predicate Valid()
      reads this, worker, worker.byteBuffer
    {
      worker.Valid() && readPos + readLen <= worker.byteBuffer.Length && (open ==> worker.live)
    }

    /** What the stream will still deliver. */
    function Remaining(): bytes
      requires Valid()
      reads this, worker, worker.byteBuffer
    {
      worker.byteBuffer[readPos..readPos + readLen] + worker.Left()
    }

    lemma RemainingIs(window: bytes)
      requires Valid() && worker.byteBuffer[readPos..readPos + readLen] == window
      ensures Remaining() == window + worker.Left()
    {}

    /** `readinto`: the next bytes in order, or the end; `ReadResult` is NoBuffer after the end. */
    method ReadInto(byteObj: array<byte>) returns (r: ReadResult)
      requires Valid() && byteObj != worker.byteBuffer
      modifies this, worker, worker.byteBuffer, byteObj
      ensures Valid()
      ensures r.NoBuffer? <==> !old(open)
      ensures r.NoBuffer? ==> byteObj[..] == old(byteObj[..])
      ensures r.Count? ==> r.n <= byteObj.Length && byteObj[r.n..] == old(byteObj[r.n..])
      ensures r.Count? && open ==> byteObj[..r.n] + Remaining() == old(Remaining()) && (byteObj.Length > 0 ==> r.n > 0)
      ensures r.Count? && open ==> r.n == byteObj.Length || readLen == 0
      ensures r.Count? && !open ==> r.n == 0 && old(readLen) == 0 && old(worker.Rest()) == []
                                    && (old(worker.pending) == [] || old(worker.pending)[0] == [])
    {
      if !open {
        return NoBuffer;
      }
      if readLen == 0 {
        var ended := Refill();
        if ended {
          return Count(0);
        }
      }
      var length := HandOut(byteObj);
      return Count(length);
    }

    /** Wait for the worker's answer. */
    method Refill() returns (ended: bool)
      requires Valid() && open && readLen == 0
      modifies this, worker, worker.byteBuffer
      ensures Valid() && open == !ended
      ensures !ended ==> readLen > 0 && Remaining() == old(Remaining())
      ensures ended ==> old(worker.Rest()) == [] && (old(worker.pending) == [] || old(worker.pending)[0] == [])
    {
      RemainingIs([]);
      assert [] + worker.Left() == worker.Left();
      hide WorkerStream.Left, WorkerStream.Rest, Remaining;
      worker.GetMore();
      ended := worker.word <= 0;
      if ended {
        open, readLen, readPos := false, 0, 0;
      } else {
        readLen, readPos := worker.word, 0;
        RemainingIs(worker.byteBuffer[..worker.word]);
      }
    }

    /** Copy from the window to the caller's buffer. */
    method HandOut(byteObj: array<byte>) returns (length: nat)
      requires Valid() && open && readLen > 0 && byteObj != worker.byteBuffer
      modifies this`readLen, this`readPos, byteObj
      ensures Valid() && length <= byteObj.Length && (byteObj.Length > 0 ==> length > 0)
      ensures byteObj[length..] == old(byteObj[length..])
      ensures byteObj[..length] + Remaining() == old(Remaining())
      ensures length == byteObj.Length || readLen == 0
    {
      length := if readLen < byteObj.Length then readLen else byteObj.Length;
      hide WorkerStream.Left, WorkerStream.Rest, Remaining;
      var window := worker.byteBuffer[readPos..readPos + readLen];
      RemainingIs(window);
      CutHead(window, length, worker.Left());
      CopyInto(byteObj, window[..length]);
      readLen, readPos := readLen - length, readPos + length;
      RemainingIs(window[length..]);
    }
  }
}
