/**
 * The resumable chunked upload of sharepoint/upload.go: the wire-level pieces
 * (the Content-Range header, the server's "next expected range" and Range
 * header), the classification of replies, and the session set-up and chunk
 * loop of `UploadFileChunkedResumeV2`.
 *
 * The remote service is an oracle: the k-th request the routine issues gets
 * `replies[k]`, and any request past the end of the script fails at transport
 * level. Each reply stands for what resty hands back after its own retries.
 */
module Upload {
  import opened Wrappers
  import opened Files
  import opened Text
  import opened Paths
  import opened SharePointPaths

  /** Bytes per PUT: 5 MiB. */
  const ChunkSize: nat := 5 * 1024 * 1024

  /** Attempts at creating an upload session. */
  const SessionAttempts: nat := 3

  // ---------------------------------------------------------------------------
  // Data model
  // ---------------------------------------------------------------------------

  /** `uploadSessionResp`: the JSON body of a session reply. */
  datatype SessionInfo = SessionInfo(uploadUrl: string, expirationDateTime: string, nextExpectedRanges: seq<string>)

  /** `uploadState`: the JSON record kept in `<localPath>.uploadstate`. */
  datatype UploadState = UploadState(uploadUrl: string, filePath: string)

  /**
   * What one HTTP request produced: a transport error, or a status code, the
   * body if it decodes as a `SessionInfo`, and the `Range` header ("" when absent).
   */
  datatype Reply = Failed | Reply(status: int, body: Option<SessionInfo>, rangeHeader: string)

  /**
   * One PUT: the absolute inclusive byte interval and the bytes sent. Its
   * Content-Range header is `ContentRange(start, end, size)`.
   */
  datatype Chunk = Chunk(start: int, end: int, body: seq<byte>)

  /** One turn of the chunk loop: the PUT, its reply, and the status GET issued after it, if any. */
  datatype Step = Step(chunk: Chunk, reply: Reply, query: Option<Reply>)

  datatype UploadError =
    | MissingCredentials
    | EmptyFile
    | SessionRequestFailed
    | SessionRejected(status: int)
    | SessionBodyInvalid
    | EmptyUploadUrl
    | ChunkRequestFailed(start: int, end: int)
    | ChunkRejected(status: int)
    | Incomplete

  /** How the chunk loop ended. */
  datatype LoopOutcome = Completed | Stopped(error: UploadError) | Drained

  /**
   * Everything `UploadFileChunkedResumeV2` did, in the order it did it:
   * session-creation replies and the back-off waits between them, the state
   * record written, the upload URL, the resume GET, the chunk loop, the final
   * GET, and whether the state file was removed.
   */
  datatype Transfer = Transfer(
    createPath: string,
    creates: seq<Reply>,
    waits: seq<nat>,
    savedState: Option<UploadState>,
    url: string,
    resumeQuery: Option<Reply>,
    steps: seq<Step>,
    finalQuery: Option<Reply>,
    stateRemoved: bool)

  // ---------------------------------------------------------------------------
  // The oracle
  // ---------------------------------------------------------------------------

  function ReplyAt(replies: seq<Reply>, k: nat): Reply
  {
    if k < |replies| then replies[k] else Failed
  }

  /** The replies requests number `from` .. `to - 1` receive. */
  function Oracle(replies: seq<Reply>, from: nat, to: nat): (r: seq<Reply>)
    requires from <= to
    ensures |r| == to - from
    ensures forall i :: 0 <= i < to - from ==> r[i] == ReplyAt(replies, from + i)
  {
    seq(to - from, i requires 0 <= i < to - from => ReplyAt(replies, from + i))
  }

  lemma OracleAppend(replies: seq<Reply>, a: nat, b: nat, c: nat)
    requires a <= b <= c
    ensures Oracle(replies, a, b) + Oracle(replies, b, c) == Oracle(replies, a, c)
  {
    assert forall i :: 0 <= i < c - a ==> (Oracle(replies, a, b) + Oracle(replies, b, c))[i] == ReplyAt(replies, a + i);
  }

  lemma OracleSnoc(replies: seq<Reply>, a: nat, b: nat)
    requires a <= b
    ensures Oracle(replies, a, b + 1) == Oracle(replies, a, b) + [ReplyAt(replies, b)]
  {
    OracleAppend(replies, a, b, b + 1);
  }

  function OptionSeq(o: Option<Reply>): seq<Reply>
  {
    if o.Some? then [o.value] else []
  }

  /** The replies of a run of the chunk loop, in request order. */
  function StepReplies(steps: seq<Step>): seq<Reply>
  {
    if |steps| == 0 then []
    else StepReplies(steps[..|steps| - 1]) + [steps[|steps| - 1].reply] + OptionSeq(steps[|steps| - 1].query)
  }

  /** Every reply a transfer consumed, in request order. */
  function Replies(t: Transfer): seq<Reply>
  {
    t.creates + (OptionSeq(t.resumeQuery) + StepReplies(t.steps) + OptionSeq(t.finalQuery))
  }

  // ---------------------------------------------------------------------------
  // Status classification
  // ---------------------------------------------------------------------------

  /** resty's `IsError`: a status above 399. */
  predicate Accepted(r: Reply) { r.Reply? && r.status <= 399 }

  /** 200/201: the whole file is acknowledged. */
  predicate IsFinal(r: Reply) { r.Reply? && (r.status == 200 || r.status == 201) }

  /** 202/204/308: the server expects more data. */
  predicate IsPartial(r: Reply) { r.Reply? && (r.status == 202 || r.status == 204 || r.status == 308) }

  // ---------------------------------------------------------------------------
  // Header formats
  // ---------------------------------------------------------------------------

  /** The `Content-Range` header of a PUT: `bytes <start>-<end>/<total>`. */
  function ContentRange(start: int, end: int, total: int): string
  {
    "bytes " + IntText(start) + "-" + IntText(end) + "/" + IntText(total)
  }

  /** One `%d` conversion followed by the literal character `c`; the value and what follows `c`. */
  function ScanIntThen(s: string, c: char): (r: Option<(int, string)>)
    ensures r.Some? ==> |r.value.1| < |s|
  {
    match ScanInt(s)
    case None => None
    case Some((v, n)) => if n < |s| && s[n] == c then Some((v, s[n + 1..])) else None
  }

  lemma ScanIntThenText(v: int, c: char, rest: string)
    requires !IsDigit(c)
    ensures ScanIntThen(IntText(v) + [c] + rest, c) == Some((v, rest))
  {
    var s := IntText(v) + [c] + rest;
    assert s == IntText(v) + ([c] + rest);
    ScanIntText(v, [c] + rest);
    assert s[|IntText(v)|] == c;
    assert s[|IntText(v)| + 1..] == rest;
  }

  /** The `<start>-<end>/<total>` part of a `Content-Range` header. */
  function ParseRangeNumbers(s: string): Option<(int, int, int)>
  {
    match ScanIntThen(s, '-')
    case None => None
    case Some((a, r1)) =>
      match ScanIntThen(r1, '/')
      case None => None
      case Some((b, r2)) =>
        match ScanInt(r2)
        case None => None
        case Some((t, n)) => if n == |r2| then Some((a, b, t)) else None
  }

  /** Reads a `Content-Range` header back; the inverse of `ContentRange`. */
  function ParseContentRange(h: string): Option<(int, int, int)>
  {
    if !HasPrefix(h, "bytes ") then None else ParseRangeNumbers(h[6..])
  }

  lemma ParseRangeNumbersOf(start: int, end: int, total: int)
    ensures ParseRangeNumbers(IntText(start) + ['-'] + (IntText(end) + ['/'] + IntText(total))) == Some((start, end, total))
  {
    var c := IntText(total);
    var r1 := IntText(end) + ['/'] + c;
    ScanIntThenText(start, '-', r1);
    ScanIntThenText(end, '/', c);
    assert c == c + [];
    ScanIntText(total, []);
  }

  /** The header's prefix and the rest, split over arbitrary texts. */
  lemma BytesSpaceSplit(x: string, y: string, z: string)
    ensures ("bytes " + x + "-" + y + "/" + z)[..6] == "bytes "
    ensures ("bytes " + x + "-" + y + "/" + z)[6..] == x + ['-'] + (y + ['/'] + z)
  {
    var h := "bytes " + x + "-" + y + "/" + z;
    assert h == "bytes " + (x + ['-'] + (y + ['/'] + z));
  }

  lemma ContentRangeRoundTrip(start: int, end: int, total: int)
    ensures ParseContentRange(ContentRange(start, end, total)) == Some((start, end, total))
  {
    var x, y, z := IntText(start), IntText(end), IntText(total);
    BytesSpaceSplit(x, y, z);
    ParseRangeNumbersOf(start, end, total);
    var h := "bytes " + x + "-" + y + "/" + z;
    assert HasPrefix(h, "bytes ");
    assert ParseContentRange(h) == ParseRangeNumbers(x + ['-'] + (y + ['/'] + z));
  }

  /**
   * One `nextExpectedRanges` entry, read with `Sscanf(entry, "%d-", &start)`:
   * the integer it starts with, or 0 when it does not start with one.
   */
  function NextExpectedStart(entry: string): int
  {
    match ScanInt(entry)
    case Some((v, _)) => v
    case None => 0
  }

  lemma NextExpectedStartOf(n: int)
    ensures NextExpectedStart(IntText(n) + "-") == n
  {
    ScanIntText(n, "-");
  }

  /** A `Range: bytes=<a>-<b>` header, read with `Sscanf`; the end `b` when both numbers scan. */
  function RangeHeaderEnd(h: string): (e: Option<int>)
    ensures e.Some? ==> HasPrefix(h, "bytes=")
  {
    if !HasPrefix(h, "bytes=") then None
    else
      match ScanIntThen(h[6..], '-')
      case None => None
      case Some((_, r1)) =>
        match ScanInt(r1)
        case None => None
        case Some((b, _)) => Some(b)
  }

  /** The Range header's prefix and the rest, split over arbitrary texts. */
  lemma BytesEqualsSplit(x: string, y: string)
    ensures ("bytes=" + x + "-" + y)[..6] == "bytes="
    ensures ("bytes=" + x + "-" + y)[6..] == x + ['-'] + y
  {
    var h := "bytes=" + x + "-" + y;
    assert h == "bytes=" + (x + ['-'] + y);
  }

  lemma RangeHeaderEndOf(a: int, b: int)
    ensures RangeHeaderEnd("bytes=" + IntText(a) + "-" + IntText(b)) == Some(b)
  {
    var ta, tb := IntText(a), IntText(b);
    BytesEqualsSplit(ta, tb);
    var h := "bytes=" + ta + "-" + tb;
    assert HasPrefix(h, "bytes=");
    ScanIntThenText(a, '-', tb);
    assert ScanIntThen(h[6..], '-') == Some((a, tb));
    assert tb == tb + [];
    ScanIntText(b, []);
    assert ScanInt(tb) == Some((b, |tb|));
  }

  /** The first `nextExpectedRanges` entry of a reply body that decodes, as a number. */
  function BodyOffset(r: Reply): (o: Option<int>)
    ensures o.Some? <==> r.Reply? && r.body.Some? && |r.body.value.nextExpectedRanges| > 0
  {
    if r.Reply? && r.body.Some? && |r.body.value.nextExpectedRanges| > 0
    then Some(NextExpectedStart(r.body.value.nextExpectedRanges[0]))
    else None
  }

  /**
   * `getNextStart` applied to the reply of its GET: None is its error result
   * (transport error or error status); otherwise the first next-expected
   * offset, else the end of the Range header plus one, else 0.
   */
  function NextStart(r: Reply): (o: Option<int>)
    ensures o.None? <==> !Accepted(r)
  {
    if !Accepted(r) then None
    else if BodyOffset(r).Some? then BodyOffset(r)
    else if r.rangeHeader != "" && RangeHeaderEnd(r.rangeHeader).Some? then Some(RangeHeaderEnd(r.rangeHeader).value + 1)
    else Some(0)
  }

  /** `getNextStart` reads the offset from the first next-expected range the server reports... */
  lemma NextStartFromBody(status: int, info: SessionInfo, n: int, header: string)
    requires status <= 399
    requires |info.nextExpectedRanges| > 0 && info.nextExpectedRanges[0] == IntText(n) + "-"
    ensures NextStart(Reply(status, Some(info), header)) == Some(n)
  {
    NextExpectedStartOf(n);
  }

  /** ... else one past the end of the Range header ... */
  lemma NextStartFromRange(status: int, a: int, b: int)
    requires status <= 399
    ensures NextStart(Reply(status, None, "bytes=" + IntText(a) + "-" + IntText(b))) == Some(b + 1)
  {
    RangeHeaderEndOf(a, b);
    NextStartFromHeader(status, "bytes=" + IntText(a) + "-" + IntText(b), b);
  }

  lemma NextStartFromHeader(status: int, h: string, e: int)
    requires status <= 399 && RangeHeaderEnd(h) == Some(e)
    ensures NextStart(Reply(status, None, h)) == Some(e + 1)
  {
  }

  /** ... else 0. */
  lemma NextStartDefault(status: int)
    requires status <= 399
    ensures NextStart(Reply(status, None, "")) == Some(0)
  {
  }

  /** The cursor the upload starts from: the server's offset when it reports one above 0. */
  function ResumeOffset(q: Reply): (start: int)
    ensures start >= 0
    ensures start > 0 <==> NextStart(q).Some? && NextStart(q).value > 0
  {
    var s := NextStart(q);
    if s.Some? && s.value > 0 then s.value else 0
  }

  // ---------------------------------------------------------------------------
  // Chunks and the cursor rule
  // ---------------------------------------------------------------------------

  function Min(a: int, b: int): int { if a <= b then a else b }

  /**
   * A PUT at cursor `c.start`: `min(5 MiB, remaining)` bytes read at that
   * offset, and an inclusive end.
   */
  predicate WellFormedChunk(file: seq<byte>, c: Chunk)
  {
    0 <= c.start < |file|
    && c.end == c.start + Min(ChunkSize, |file| - c.start) - 1
    && c.body == file[c.start..c.end + 1]
  }

  lemma WellFormedChunkBounds(file: seq<byte>, c: Chunk)
    requires WellFormedChunk(file, c)
    ensures c.start <= c.end < |file|
    ensures 0 < |c.body| == c.end - c.start + 1 <= ChunkSize
    ensures c.end == |file| - 1 <==> |file| - c.start <= ChunkSize
  {
  }

  /** After a partial reply, whether the loop must ask the server with a GET. */
  predicate NeedsQuery(start: int, r: Reply)
  {
    !(BodyOffset(r).Some? && BodyOffset(r).value > start)
  }

  /** A GET follows a PUT exactly when the reply was partial and its body gave no offset past the cursor. */
  predicate QueriedWhenNeeded(s: Step)
  {
    s.query.Some? <==> IsPartial(s.reply) && NeedsQuery(s.chunk.start, s.reply)
  }

  /**
   * The cursor after a partial reply: the body's offset when it is past the
   * cursor, else the GET's offset when that is, else one past the chunk.
   */
  function Advance(s: Step): (next: int)
    ensures s.chunk.end >= s.chunk.start ==> next > s.chunk.start
    ensures next == s.chunk.end + 1 || BodyOffset(s.reply) == Some(next) || (s.query.Some? && NextStart(s.query.value) == Some(next))
  {
    var b := BodyOffset(s.reply);
    if b.Some? && b.value > s.chunk.start then b.value
    else if s.query.Some? && NextStart(s.query.value).Some? && NextStart(s.query.value).value > s.chunk.start
    then NextStart(s.query.value).value
    else s.chunk.end + 1
  }

  /** Each PUT but the last got a partial reply, and the next one starts where `Advance` put the cursor. */
  predicate Chained(steps: seq<Step>)
  {
    forall k :: 0 <= k < |steps| - 1 ==> IsPartial(steps[k].reply) && steps[k + 1].chunk.start == Advance(steps[k])
  }

  /** The cursor never moves back: the PUTs of a chained run start at strictly increasing offsets. */
  lemma {:induction false} CursorIncreases(file: seq<byte>, steps: seq<Step>, i: nat, j: nat)
    requires forall k :: 0 <= k < |steps| ==> WellFormedChunk(file, steps[k].chunk)
    requires Chained(steps)
    requires i < j < |steps|
    ensures steps[i].chunk.start < steps[j].chunk.start
    decreases j - i
  {
    WellFormedChunkBounds(file, steps[j - 1].chunk);
    if i < j - 1 {
      CursorIncreases(file, steps, i, j - 1);
    }
  }

  // ---------------------------------------------------------------------------
  // What a run of PUTs delivered
  // ---------------------------------------------------------------------------

  /** The bytes of every PUT of a run, in order. */
  function Sent(steps: seq<Step>): seq<byte>
  {
    if |steps| == 0 then [] else Sent(steps[..|steps| - 1]) + steps[|steps| - 1].chunk.body
  }

  /** Each PUT starts right after the previous one ended. */
  predicate Contiguous(steps: seq<Step>)
  {
    forall k :: 0 <= k < |steps| - 1 ==> steps[k + 1].chunk.start == steps[k].chunk.end + 1
  }

  predicate AllWellFormed(file: seq<byte>, steps: seq<Step>)
  {
    forall k :: 0 <= k < |steps| ==> WellFormedChunk(file, steps[k].chunk)
  }

  /** A contiguous run of well-formed PUTs delivers exactly the slice of the file it spans. */
  lemma {:induction false} SentIsFileSlice(file: seq<byte>, steps: seq<Step>)
    requires |steps| > 0 && AllWellFormed(file, steps) && Contiguous(steps)
    ensures steps[0].chunk.start <= steps[|steps| - 1].chunk.end + 1 <= |file|
    ensures Sent(steps) == file[steps[0].chunk.start..steps[|steps| - 1].chunk.end + 1]
  {
    var n := |steps|;
    var last := steps[n - 1].chunk;
    WellFormedChunkBounds(file, last);
    if n > 1 {
      var prefix := steps[..n - 1];
      SentIsFileSlice(file, prefix);
      var a := steps[0].chunk.start;
      assert prefix[0] == steps[0] && prefix[n - 2] == steps[n - 2];
      assert steps[n - 2].chunk.end + 1 == last.start;
      assert Sent(prefix) == file[a..last.start];
      assert Sent(steps) == Sent(prefix) + file[last.start..last.end + 1];
      SliceConcat(file, a, last.start, last.end + 1);
    }
  }

  lemma SliceConcat(f: seq<byte>, a: nat, b: nat, c: nat)
    requires a <= b <= c <= |f|
    ensures f[a..b] + f[b..c] == f[a..c]
  {
  }

  /** The server never asks for anything but the byte after the chunk it got. */
  predicate Sequential(steps: seq<Step>)
  {
    forall k :: 0 <= k < |steps| ==> Advance(steps[k]) == steps[k].chunk.end + 1
  }

  /**
   * A run of `UploadFileChunkedResumeV2` that starts at byte 0 and runs off
   * the end of the file with a server that never skips ahead has delivered
   * the whole file, in order, exactly once.
   */
  lemma FreshSequentialRunDeliversFile(file: seq<byte>, steps: seq<Step>)
    requires RunFrom(file, 0, steps) && Sequential(steps)
    requires |steps| > 0 && Cursor(0, steps) >= |file|
    ensures Sent(steps) == file
  {
    assert Contiguous(steps) by {
      forall k | 0 <= k < |steps| - 1 ensures steps[k + 1].chunk.start == steps[k].chunk.end + 1 {
        assert Chained(steps);
      }
    }
    SentIsFileSlice(file, steps);
  }

  // ---------------------------------------------------------------------------
  // UploadFileChunkedResumeV2
  // ---------------------------------------------------------------------------

  /** A saved record is reused only for the same local path and a non-empty URL. */
  predicate CanResume(saved: Option<UploadState>, localPath: string)
  {
    saved.Some? && saved.value.filePath == localPath && saved.value.uploadUrl != ""
  }

  /** A create reply that yields a session: accepted, decodable, with an upload URL. */
  predicate GrantsSession(r: Reply)
  {
    Accepted(r) && r.body.Some? && r.body.value.uploadUrl != ""
  }

  /** The error the last create attempt leaves when it yields no session. */
  function SessionError(r: Reply): (e: UploadError)
    requires !GrantsSession(r)
    ensures e in {SessionRequestFailed, SessionRejected(if r.Reply? then r.status else 0), SessionBodyInvalid, EmptyUploadUrl}
  {
    if r.Failed? then SessionRequestFailed
    else if !Accepted(r) then SessionRejected(r.status)
    else if r.body.None? then SessionBodyInvalid
    else EmptyUploadUrl
  }

  /**
   * The session step: reuse the saved record when it belongs to this file,
   * otherwise create a session (three attempts, waiting (i+1)*2 seconds after
   * failed attempt i) and save its URL before anything is uploaded.
   */
  method ResolveSession(localPath: string, saved: Option<UploadState>, replies: seq<Reply>, next0: nat)
    returns (session: Result<string, UploadError>, creates: seq<Reply>, waits: seq<nat>,
             written: Option<UploadState>, next: nat)
    ensures next0 <= next && creates == Oracle(replies, next0, next)
    ensures CanResume(saved, localPath) ==>
              session == Ok(saved.value.uploadUrl) && creates == [] && waits == [] && written == None
    ensures !CanResume(saved, localPath) ==> 1 <= |creates| <= SessionAttempts
    ensures forall k :: 0 <= k < |creates| - 1 ==> !Accepted(creates[k])
    ensures 0 < |creates| < SessionAttempts ==> Accepted(creates[|creates| - 1])
    ensures |waits| == |creates| - (if |creates| > 0 && Accepted(creates[|creates| - 1]) then 1 else 0)
    ensures forall k :: 0 <= k < |waits| ==> waits[k] == (k + 1) * 2
    ensures session.Ok? ==> session.value != ""
    ensures !CanResume(saved, localPath) ==>
              (session.Ok? <==> GrantsSession(creates[|creates| - 1]))
              && (session.Ok? ==> session.value == creates[|creates| - 1].body.value.uploadUrl
                                  && written == Some(UploadState(session.value, localPath)))
              && (session.Err? ==> session.error == SessionError(creates[|creates| - 1]))
    ensures session.Err? ==> written == None
  {
    next := next0;
    creates, waits, written := [], [], None;
    if CanResume(saved, localPath) {
      session := Ok(saved.value.uploadUrl);
      return;
    }
    var last := Failed;
    var i := 0;
    while i < SessionAttempts
      invariant 0 <= i <= SessionAttempts
      invariant next0 <= next && creates == Oracle(replies, next0, next)
      invariant |creates| == i && waits == seq(i, k requires 0 <= k < i => (k + 1) * 2)
      invariant forall k :: 0 <= k < i ==> !Accepted(creates[k])
      invariant i > 0 ==> last == creates[i - 1]
    {
      last := ReplyAt(replies, next);
      OracleAppend(replies, next0, next, next + 1);
      creates := creates + [last];
      next := next + 1;
      if Accepted(last) {
        break;
      }
      waits := waits + [(i + 1) * 2];
      i := i + 1;
    }
    if GrantsSession(last) {
      session := Ok(last.body.value.uploadUrl);
      written := Some(UploadState(session.value, localPath));
    } else {
      session := Err(SessionError(last));
    }
  }

  /** The error a PUT that got neither a final nor a partial reply ends the upload with. */
  function StepError(s: Step): (e: UploadError)
    ensures e == ChunkRequestFailed(s.chunk.start, s.chunk.end) <==> s.reply.Failed?
  {
    if s.reply.Failed? then ChunkRequestFailed(s.chunk.start, s.chunk.end) else ChunkRejected(s.reply.status)
  }

  /** Every PUT of a run is well formed and followed by a GET exactly when needed. */
  predicate StepsWellFormed(file: seq<byte>, steps: seq<Step>)
  {
    forall k :: 0 <= k < |steps| ==> WellFormedChunk(file, steps[k].chunk) && QueriedWhenNeeded(steps[k])
  }

  /** A run of the chunk loop that started at cursor `start0`. */
  predicate RunFrom(file: seq<byte>, start0: int, steps: seq<Step>)
  {
    StepsWellFormed(file, steps) && Chained(steps) && (|steps| > 0 ==> steps[0].chunk.start == start0)
  }

  /** Where the cursor of a run stands: `start0`, or wherever the last reply moved it. */
  function Cursor(start0: int, steps: seq<Step>): int
  {
    if |steps| == 0 then start0 else Advance(steps[|steps| - 1])
  }

  /** The loop is still going: no PUT yet, or the last one got a partial reply. */
  predicate Continuing(steps: seq<Step>)
  {
    |steps| == 0 || IsPartial(steps[|steps| - 1].reply)
  }

  predicate CursorAt(start0: int, steps: seq<Step>, start: int)
  {
    Continuing(steps) && start == Cursor(start0, steps)
  }

  lemma ExtendRun(file: seq<byte>, start0: int, steps: seq<Step>, step: Step)
    requires RunFrom(file, start0, steps) && CursorAt(start0, steps, step.chunk.start)
    requires WellFormedChunk(file, step.chunk) && QueriedWhenNeeded(step)
    ensures RunFrom(file, start0, steps + [step])
    ensures StepReplies(steps + [step]) == StepReplies(steps) + [step.reply] + OptionSeq(step.query)
  {
    assert (steps + [step])[..|steps|] == steps;
  }

  /**
   * One turn of the chunk loop at cursor `start`: PUT the next chunk and, when
   * a partial reply carries no offset past the cursor, GET the session status.
   */
  method SendChunk(file: seq<byte>, start: int, replies: seq<Reply>, next0: nat) returns (step: Step, next: nat)
    requires 0 <= start < |file|
    ensures step.chunk.start == start && WellFormedChunk(file, step.chunk) && QueriedWhenNeeded(step)
    ensures next0 < next && [step.reply] + OptionSeq(step.query) == Oracle(replies, next0, next)
  {
    var end := start + Min(ChunkSize, |file| - start) - 1;
    var chunk := Chunk(start, end, file[start..end + 1]);
    var reply := ReplyAt(replies, next0);
    var query: Option<Reply> := None;
    next := next0 + 1;
    if IsPartial(reply) && NeedsQuery(start, reply) {
      query := Some(ReplyAt(replies, next));
      next := next + 1;
    }
    step := Step(chunk, reply, query);
  }

  /**
   * The chunk loop: from cursor `start0`, PUT `min(5 MiB, remaining)` bytes at
   * the cursor until the file is covered, a 200/201 arrives, or a reply is
   * neither final nor partial.
   */
  method SendChunks(file: seq<byte>, start0: int, replies: seq<Reply>, next0: nat)
    returns (outcome: LoopOutcome, steps: seq<Step>, next: nat)
    requires 0 <= start0
    ensures next0 <= next && StepReplies(steps) == Oracle(replies, next0, next)
    ensures RunFrom(file, start0, steps)
    ensures outcome == Drained ==> Continuing(steps) && Cursor(start0, steps) >= |file|
    ensures outcome == Completed ==> |steps| > 0 && IsFinal(steps[|steps| - 1].reply)
    ensures outcome.Stopped? ==>
              |steps| > 0 && !IsFinal(steps[|steps| - 1].reply) && !IsPartial(steps[|steps| - 1].reply)
              && outcome.error == StepError(steps[|steps| - 1])
  {
    var start := start0;
    steps, next := [], next0;
    while start < |file|
      invariant 0 <= start0 <= start
      invariant next0 <= next && StepReplies(steps) == Oracle(replies, next0, next)
      invariant RunFrom(file, start0, steps) && CursorAt(start0, steps, start)
      decreases |file| - start
    {
      var step, next' := SendChunk(file, start, replies, next);
      OracleAppend(replies, next0, next, next');
      next := next';
      ExtendRun(file, start0, steps, step);
      steps := steps + [step];
      if IsFinal(step.reply) {
        return Completed, steps, next;
      } else if !IsPartial(step.reply) {
        return Stopped(StepError(step)), steps, next;
      }
      start := Advance(step);
    }
    outcome := Drained;
  }

  /** A status reply that puts the next expected byte at or past the end of the file. */
  predicate Covered(q: Reply, size: int)
  {
    NextStart(q).Some? && NextStart(q).value >= size
  }

  /** The last PUT of a run got 200/201. */
  predicate EndedFinal(steps: seq<Step>)
  {
    |steps| > 0 && IsFinal(steps[|steps| - 1].reply)
  }

  /** The last PUT of a run got a reply that is neither final nor partial. */
  predicate EndedRejected(steps: seq<Step>)
  {
    |steps| > 0 && !IsFinal(steps[|steps| - 1].reply) && !IsPartial(steps[|steps| - 1].reply)
  }

  /**
   * Everything after the session is known: the GET that finds the resume
   * offset, the chunk loop from there, and the final GET when the loop ran
   * off the end of the file without a 200/201. `err` is None on success.
   */
  method Transmit(file: seq<byte>, replies: seq<Reply>, next0: nat)
    returns (err: Option<UploadError>, resumeQuery: Reply, steps: seq<Step>, finalQuery: Option<Reply>, next: nat)
    ensures next0 <= next && [resumeQuery] + StepReplies(steps) + OptionSeq(finalQuery) == Oracle(replies, next0, next)
    ensures RunFrom(file, ResumeOffset(resumeQuery), steps)
    ensures finalQuery.Some? <==> Continuing(steps) && Cursor(ResumeOffset(resumeQuery), steps) >= |file|
    ensures EndedFinal(steps) || EndedRejected(steps) || finalQuery.Some?
    ensures EndedRejected(steps) ==> err == Some(StepError(steps[|steps| - 1]))
    ensures err.None? <==> EndedFinal(steps) || (finalQuery.Some? && Covered(finalQuery.value, |file|))
    ensures err == Some(Incomplete) <==> finalQuery.Some? && !Covered(finalQuery.value, |file|)
  {
    resumeQuery := ReplyAt(replies, next0);
    var start := ResumeOffset(resumeQuery);
    var outcome, next1;
    outcome, steps, next1 := SendChunks(file, start, replies, next0 + 1);
    OracleAppend(replies, next0, next0 + 1, next1);
    assert Oracle(replies, next0, next0 + 1) == [resumeQuery];
    ghost var sent := [resumeQuery] + StepReplies(steps);
    assert sent == Oracle(replies, next0, next1);
    next := next1;
    finalQuery := None;
    assert sent + OptionSeq(finalQuery) == sent;
    match outcome {
      case Completed =>
        err := None;
      case Stopped(e) =>
        err := Some(e);
      case Drained =>
        var f := ReplyAt(replies, next1);
        OracleSnoc(replies, next0, next1);
        finalQuery := Some(f);
        next := next1 + 1;
        err := if Covered(f, |file|) then None else Some(Incomplete);
    }
  }

  /** `Transmit` on an open session at `url`, recorded in the transfer. */
  method Proceed(t0: Transfer, url: string, file: seq<byte>, replies: seq<Reply>, next0: nat)
    returns (err: Option<UploadError>, t: Transfer, next: nat)
    ensures t.createPath == t0.createPath && t.creates == t0.creates && t.waits == t0.waits
    ensures t.savedState == t0.savedState && t.url == url && t.resumeQuery.Some?
    ensures next0 <= next && OptionSeq(t.resumeQuery) + StepReplies(t.steps) + OptionSeq(t.finalQuery) == Oracle(replies, next0, next)
    ensures RunFrom(file, ResumeOffset(t.resumeQuery.value), t.steps)
    ensures t.finalQuery.Some? <==> Continuing(t.steps) && Cursor(ResumeOffset(t.resumeQuery.value), t.steps) >= |file|
    ensures EndedFinal(t.steps) || EndedRejected(t.steps) || t.finalQuery.Some?
    ensures EndedRejected(t.steps) ==> err == Some(StepError(t.steps[|t.steps| - 1]))
    ensures err.None? <==> t.stateRemoved
    ensures err.None? <==> EndedFinal(t.steps) || (t.finalQuery.Some? && Covered(t.finalQuery.value, |file|))
    ensures err == Some(Incomplete) <==> t.finalQuery.Some? && !Covered(t.finalQuery.value, |file|)
  {
    var q, steps, final;
    err, q, steps, final, next := Transmit(file, replies, next0);
    t := t0.(url := url, resumeQuery := Some(q), steps := steps, finalQuery := final, stateRemoved := err.None?);
    assert OptionSeq(t.resumeQuery) == [q];
  }

  /** A transfer whose session requests and later requests each took consecutive replies took consecutive replies from the start. */
  lemma TransferReplies(t: Transfer, replies: seq<Reply>, next: nat, next': nat)
    requires next <= next' && t.creates == Oracle(replies, 0, next)
    requires OptionSeq(t.resumeQuery) + StepReplies(t.steps) + OptionSeq(t.finalQuery) == Oracle(replies, next, next')
    ensures Replies(t) == Oracle(replies, 0, |Replies(t)|)
  {
    OracleAppend(replies, 0, next, next');
  }

  /**
   * What the exchange with the server guarantees once the credential and size
   * checks have passed, `err` being None on success:
   * - the requests consume the oracle in order;
   * - the session: a saved state is reused only under `CanResume`, and then
   *   nothing is created, awaited or written; otherwise one to three create
   *   requests, each but the last rejected and fewer than three only when the
   *   last was accepted, a wait of `(k + 1) * 2` seconds after the k-th
   *   rejection, and
   *   when one is granted its URL and this path go to the state file before
   *   any chunk; the chunks go to the reused or granted URL, never to "";
   * - without a session nothing else is sent and the error is the session's;
   * - with one, the chunks form a chained run from the resume offset, which
   *   ends on a final reply, on a rejected reply, or by draining to the file
   *   size, and only in that last case is the final query made;
   * - the end: success exactly when the last chunk got a final reply or the
   *   final query covers the file, "incomplete" exactly when it does not, a
   *   rejected chunk's own error otherwise; the state file is removed exactly
   *   on success.
   */
  predicate SessionRun(localPath: string, file: seq<byte>, saved: Option<UploadState>, replies: seq<Reply>,
                       err: Option<UploadError>, t: Transfer)
  {
    && Replies(t) == Oracle(replies, 0, |Replies(t)|)
    && (t.savedState.Some? ==> t.savedState == Some(UploadState(t.url, localPath)))
    // the session
    && (CanResume(saved, localPath) ==> t.creates == [] && t.waits == [] && t.savedState == None)
    && (!CanResume(saved, localPath) ==>
          1 <= |t.creates| <= SessionAttempts
          && (forall k :: 0 <= k < |t.creates| - 1 ==> !Accepted(t.creates[k]))
          && (|t.creates| < SessionAttempts ==> Accepted(t.creates[|t.creates| - 1]))
          && |t.waits| == |t.creates| - (if Accepted(t.creates[|t.creates| - 1]) then 1 else 0))
    && (forall k :: 0 <= k < |t.waits| ==> t.waits[k] == (k + 1) * 2)
    && (t.resumeQuery.Some? ==>
          t.url != ""
          && (CanResume(saved, localPath) ==> t.url == saved.value.uploadUrl)
          && (!CanResume(saved, localPath) ==>
                GrantsSession(t.creates[|t.creates| - 1]) && t.url == t.creates[|t.creates| - 1].body.value.uploadUrl
                && t.savedState == Some(UploadState(t.url, localPath))))
    && (t.resumeQuery.None? ==>
          t.steps == [] && t.finalQuery == None && err.Some?
          && !CanResume(saved, localPath) && !GrantsSession(t.creates[|t.creates| - 1])
          && err.value == SessionError(t.creates[|t.creates| - 1]))
    // the chunk loop
    && (t.resumeQuery.Some? ==> RunFrom(file, ResumeOffset(t.resumeQuery.value), t.steps))
    && (t.resumeQuery.Some? ==>
          (t.finalQuery.Some? <==> Continuing(t.steps) && Cursor(ResumeOffset(t.resumeQuery.value), t.steps) >= |file|))
    && (t.resumeQuery.Some? ==> EndedFinal(t.steps) || EndedRejected(t.steps) || t.finalQuery.Some?)
    && (EndedRejected(t.steps) ==> err == Some(StepError(t.steps[|t.steps| - 1])))
    // the end
    && (err.None? <==> t.stateRemoved)
    && (err.None? <==> EndedFinal(t.steps) || (t.finalQuery.Some? && Covered(t.finalQuery.value, |file|)))
    && (err == Some(Incomplete) <==> t.finalQuery.Some? && !Covered(t.finalQuery.value, |file|))
  }

  /**
   * The part of `UploadFileChunkedResumeV2` that talks to the server: obtain a
   * session (reused or created, see `ResolveSession`), then `Transmit`. The
   * escaped path of the create request is passed in. `err` is None on success,
   * when the state file is removed.
   */
  method RunSession(createPath: string, localPath: string, file: seq<byte>, saved: Option<UploadState>, replies: seq<Reply>)
    returns (err: Option<UploadError>, t: Transfer)
    ensures t.createPath == createPath
    ensures SessionRun(localPath, file, saved, replies, err, t)
  {
    var session, creates, waits, written, next := ResolveSession(localPath, saved, replies, 0);
    t := Transfer(createPath, creates, waits, written, "", None, [], None, false);
    if session.Err? {
      TransferReplies(t, replies, next, next);
      return Some(session.error), t;
    }
    // The upload URL is never empty here, so the resume GET is always issued.
    var next';
    err, t, next' := Proceed(t, session.value, file, replies, next);
    TransferReplies(t, replies, next, next');
  }

  /** The error a result carries; None for success. */
  function ErrorOf(r: Result<string, UploadError>): (e: Option<UploadError>)
    ensures e.None? <==> r.Ok?
    ensures e.Some? ==> r == Err(e.value)
  {
    if r.Ok? then None else Some(r.error)
  }

  /**
   * `UploadFileChunkedResumeV2(localPath, sharepointFolderPath)` for a file
   * whose contents are `file`, a token and site id read from the environment,
   * the decoded state record (None when absent or unreadable), the server's
   * replies, `url.PathEscape` and the host path separator. Nothing is sent
   * without credentials or for an empty file; on success the result is the
   * destination path with its leading '/' dropped and '/' as separator.
   */
  method UploadV2(localPath: string, sharepointPath: string, file: seq<byte>, token: string, siteId: string,
                  saved: Option<UploadState>, replies: seq<Reply>, esc: string -> string, sep: char)
    returns (result: Result<string, UploadError>, t: Transfer)
    // nothing is sent, and no state file is written or removed, without credentials or for an empty file
    ensures token == "" || siteId == "" ==> result == Err(MissingCredentials)
    ensures token != "" && siteId != "" && |file| == 0 ==> result == Err(EmptyFile)
    ensures token == "" || siteId == "" || |file| == 0 ==>
              Replies(t) == [] && t.savedState == None && t.steps == [] && !t.stateRemoved
    // otherwise the session and the chunk loop of `RunSession`
    ensures token != "" && siteId != "" && |file| > 0 ==>
              t.createPath == Join(EscapeAll(Split(CleanSharePointPath(sharepointPath), '/'), esc), '/')
              && |Replies(t)| > 0
              && SessionRun(localPath, file, saved, replies, ErrorOf(result), t)
    ensures result.Ok? <==> t.stateRemoved
    ensures result.Ok? ==> result.value == ToSlash(TrimPrefix(sharepointPath, "/"), sep)
  {
    t := Transfer("", [], [], None, "", None, [], None, false);
    if token == "" || siteId == "" {
      return Err(MissingCredentials), t;
    }
    if |file| == 0 {
      return Err(EmptyFile), t;
    }
    var escaped := EscapeSharePointPath(CleanSharePointPath(sharepointPath), esc);
    var err;
    err, t := RunSession(escaped, localPath, file, saved, replies);
    assert |t.creates| > 0 || t.resumeQuery.Some?;
    result := if err.None? then Ok(ToSlash(TrimPrefix(sharepointPath, "/"), sep)) else Err(err.value);
    assert ErrorOf(result) == err;
  }
}

/**
 * The older `UploadFileChunkedResume`, which creates a fresh session every time and sends the file in fixed
 * 5 MiB slices.
 */
module LegacyUpload {
  import opened Wrappers
  import opened Files
  import opened Text
  import opened Paths
  import opened Upload

  // ---------------------------------------------------------------------------
  // UploadFileChunkedResume
  // ---------------------------------------------------------------------------

  /** `totalChunks`: the number of 5 MiB slices, the last one possibly short. */
  function TotalChunks(size: nat): (n: nat)
    ensures size > 0 ==> (n - 1) * ChunkSize < size <= n * ChunkSize
    ensures size == 0 ==> n == 0
  {
    (size + ChunkSize - 1) / ChunkSize
  }

  /** What the loop does with the reply to a PUT. */
  datatype Verdict = Done | Next | Fail

  /** As written: only a transport error stops the loop; 200/201 finish; any other status moves on. */
  function LegacyVerdict(r: Reply): (v: Verdict)
    ensures v == Fail <==> r.Failed?
    ensures v == Done <==> IsFinal(r)
  {
    if r.Failed? then Fail else if IsFinal(r) then Done else Next
  }

  /** As evidently intended: a status that is neither final nor partial is an error, as in the V2 loop. */
  function CheckedVerdict(r: Reply): (v: Verdict)
    ensures v == Done <==> IsFinal(r)
    ensures v == Next <==> IsPartial(r)
    ensures v == Fail <==> !IsFinal(r) && !IsPartial(r)
  {
    if IsFinal(r) then Done else if IsPartial(r) then Next else Fail
  }

  function VerdictOf(strict: bool, r: Reply): Verdict
  {
    if strict then CheckedVerdict(r) else LegacyVerdict(r)
  }

  /** A rejected PUT (status 500, say) counts as progress as written, and as an error once checked. */
  lemma RejectedChunkVerdicts(status: int, header: string)
    requires status >= 400
    ensures LegacyVerdict(Reply(status, None, header)) == Next
    ensures CheckedVerdict(Reply(status, None, header)) == Fail
  {
  }

  /** The PUT of slice `k`: it starts at `k` times 5 MiB. */
  predicate SliceK(file: seq<byte>, steps: seq<Step>)
  {
    forall k :: 0 <= k < |steps| ==>
      steps[k].chunk.start == k * ChunkSize && WellFormedChunk(file, steps[k].chunk) && steps[k].query == None
  }

  /** Slice `k` of a file starts inside it, and every slice but the last is a full 5 MiB. */
  lemma SliceBounds(size: nat, k: nat)
    requires k < TotalChunks(size)
    ensures k * ChunkSize < size
    ensures k + 1 < TotalChunks(size) ==> (k + 1) * ChunkSize < size
  {
  }

  lemma SliceKSnoc(file: seq<byte>, steps: seq<Step>, step: Step)
    requires SliceK(file, steps)
    requires step.chunk.start == |steps| * ChunkSize && WellFormedChunk(file, step.chunk) && step.query == None
    ensures SliceK(file, steps + [step])
  {
    var s := steps + [step];
    forall k | 0 <= k < |s|
      ensures s[k].chunk.start == k * ChunkSize && WellFormedChunk(file, s[k].chunk) && s[k].query == None
    {
      if k < |steps| {
        assert s[k] == steps[k];
      }
    }
  }

  function PutReplies(steps: seq<Step>): seq<Reply>
  {
    if |steps| == 0 then [] else PutReplies(steps[..|steps| - 1]) + [steps[|steps| - 1].reply]
  }

  /**
   * The loop of `UploadFileChunkedResume`: for each of `totalChunks` slices,
   * read up to 5 MiB, PUT it with its Content-Range, stop on a transport error
   * or a 200/201, and otherwise advance by the bytes read. `strict` selects
   * the corrected reply check instead of the one as written.
   */
  method PutSlices(file: seq<byte>, strict: bool, replies: seq<Reply>, next0: nat)
    returns (err: Option<UploadError>, steps: seq<Step>, next: nat)
    ensures next == next0 + |steps| && PutReplies(steps) == Oracle(replies, next0, next)
    ensures SliceK(file, steps) && |steps| <= TotalChunks(|file|)
    ensures forall k :: 0 <= k < |steps| - 1 ==> VerdictOf(strict, steps[k].reply) == Next
    ensures |steps| < TotalChunks(|file|) ==> |steps| > 0 && VerdictOf(strict, steps[|steps| - 1].reply) != Next
    ensures err.None? <==> |steps| == 0 || VerdictOf(strict, steps[|steps| - 1].reply) != Fail
    ensures err.Some? ==> err.value == StepError(steps[|steps| - 1])
  {
    var total := TotalChunks(|file|);
    var start := 0;
    var chunkIndex := 0;
    steps, next := [], next0;
    err := None;
    while chunkIndex < total
      invariant 0 <= chunkIndex <= total && chunkIndex == |steps|
      invariant chunkIndex < total ==> start == chunkIndex * ChunkSize
      invariant next == next0 + |steps| && PutReplies(steps) == Oracle(replies, next0, next)
      invariant SliceK(file, steps)
      invariant forall k :: 0 <= k < |steps| ==> VerdictOf(strict, steps[k].reply) == Next
    {
      SliceBounds(|file|, chunkIndex);
      var bytesRead := Min(ChunkSize, |file| - start);
      var end := start + bytesRead - 1;
      var chunk := Chunk(start, end, file[start..end + 1]);
      var reply := ReplyAt(replies, next);
      OracleSnoc(replies, next0, next);
      var step := Step(chunk, reply, None);
      assert (steps + [step])[..|steps|] == steps;
      SliceKSnoc(file, steps, step);
      steps := steps + [step];
      next := next + 1;
      var v := VerdictOf(strict, reply);
      if v == Fail {
        return Some(StepError(step)), steps, next;
      } else if v == Done {
        return None, steps, next;
      }
      start := start + bytesRead;
      chunkIndex := chunkIndex + 1;
    }
  }

  /** A loop that ran all of its slices without a final reply has sent every byte of the file, in order. */
  lemma {:induction false} AllSlicesDeliverFile(file: seq<byte>, steps: seq<Step>)
    requires SliceK(file, steps) && |steps| == TotalChunks(|file|) && |file| > 0
    ensures Sent(steps) == file
  {
    var n := |steps|;
    assert Contiguous(steps) by {
      forall k | 0 <= k < n - 1 ensures steps[k + 1].chunk.start == steps[k].chunk.end + 1 {
        assert steps[k + 1].chunk.start == (k + 1) * ChunkSize;
        assert WellFormedChunk(file, steps[k + 1].chunk);
      }
    }
    SentIsFileSlice(file, steps);
    assert WellFormedChunk(file, steps[n - 1].chunk);
  }

  /**
   * `UploadFileChunkedResume(localPath, sharepointPath)`: check credentials,
   * POST one create-session request for the whole escaped path, read the
   * upload URL out of the body without looking at the status, then `PutSlices`.
   * A PUT to an empty URL fails in the HTTP client without reaching the server.
   * Success returns the destination path as given.
   */
  method UploadChunkedResume(sharepointPath: string, file: seq<byte>, token: string, siteId: string,
                             strict: bool, replies: seq<Reply>, esc: string -> string, sep: char)
    returns (result: Result<string, UploadError>, createPath: string, session: Option<Reply>, url: string, steps: seq<Step>)
    ensures token == "" || siteId == "" ==> result == Err(MissingCredentials) && session == None && steps == []
    ensures token != "" && siteId != "" ==> session.Some?
    ensures session.Some? ==> session.value == ReplyAt(replies, 0)
                              && createPath == esc(TrimPrefix(ToSlash(sharepointPath, sep), "/"))
    ensures session.Some? && session.value.Failed? ==> result == Err(SessionRequestFailed) && steps == []
    ensures session.Some? && session.value.Reply? && session.value.body.None? ==>
              result == Err(SessionBodyInvalid) && steps == []
    ensures steps != [] ==> session.Some? && session.value.Reply? && session.value.body.Some?
                            && url == session.value.body.value.uploadUrl && url != ""
    ensures session.Some? && session.value.Reply? && session.value.body.Some? ==> url == session.value.body.value.uploadUrl
    // a body without an upload URL leaves the URL empty: the first PUT then fails before reaching the server
    ensures session.Some? && session.value.Reply? && session.value.body.Some? && url == "" ==>
              steps == [] && (result.Ok? <==> |file| == 0)
              && (|file| > 0 ==> result == Err(ChunkRequestFailed(0, Min(ChunkSize, |file|) - 1)))
    ensures PutReplies(steps) == Oracle(replies, 1, 1 + |steps|)
    ensures SliceK(file, steps) && |steps| <= TotalChunks(|file|)
    ensures forall k :: 0 <= k < |steps| - 1 ==> VerdictOf(strict, steps[k].reply) == Next
    ensures result.Ok? ==> result.value == sharepointPath
    ensures session.Some? && session.value.Reply? && session.value.body.Some? && url != "" ==>
              (result.Ok? <==> |steps| == 0 || VerdictOf(strict, steps[|steps| - 1].reply) != Fail)
              && (result.Ok? && (|steps| == 0 || VerdictOf(strict, steps[|steps| - 1].reply) == Next) ==>
                    |steps| == TotalChunks(|file|))
              && (result.Err? ==> result.error == StepError(steps[|steps| - 1]))
  {
    createPath, session, url, steps := "", None, "", [];
    if token == "" || siteId == "" {
      return Err(MissingCredentials), createPath, session, url, steps;
    }
    createPath := esc(TrimPrefix(ToSlash(sharepointPath, sep), "/"));
    var r := ReplyAt(replies, 0);
    session := Some(r);
    if r.Failed? {
      return Err(SessionRequestFailed), createPath, session, url, steps;
    }
    if r.body.None? {
      return Err(SessionBodyInvalid), createPath, session, url, steps;
    }
    url := r.body.value.uploadUrl;
    if url == "" {
      if TotalChunks(|file|) == 0 {
        return Ok(sharepointPath), createPath, session, url, steps;
      }
      return Err(ChunkRequestFailed(0, Min(ChunkSize, |file|) - 1)), createPath, session, url, steps;
    }
    var err, next;
    err, steps, next := PutSlices(file, strict, replies, 1);
    result := if err.None? then Ok(sharepointPath) else Err(err.value);
  }
}
