/**
 Progress of a download, the exact course of an undisturbed one, and the two-ended copy in which
 the repository's own contents-request handler answers the repository's own downloader.
 */
module ClipboardProgress {
  import opened Basics
  import opened ClipboardTransfer
  import opened ClipboardInvariant

  function FilesLeft(s: State): nat {
    if Active(s) then |s.items| - s.index else 0
  }

  function BytesLeft(s: State): nat {
    if Active(s) && s.items[s.index].received <= s.items[s.index].fileSize
        then s.items[s.index].fileSize - s.items[s.index].received else 0
  }

  predicate Closer(t: State, s: State) {
    FilesLeft(t) < FilesLeft(s) || (FilesLeft(t) == FilesLeft(s) && BytesLeft(t) < BytesLeft(s))
  }

  /** `startNextIncomingFile` never goes back, keeps the list unless it hands it over, and logs only
      files from its starting position on. */
  lemma {:induction false} StartNextForward(s: State, openOk: set<nat>)
    ensures var t := StartNext(s, openOk);
            && FilesLeft(t) <= FilesLeft(s) && t.offers == s.offers
            && (Active(t) ==> t.index >= s.index && |t.items| == |s.items|)
            && |s.log| <= |t.log| && t.log[..|s.log|] == s.log
            && (forall k :: |s.log| <= k < |t.log| ==> t.log[k].index >= s.index)
    decreases |s.items| - s.index
  {
    hide OpenCurrent, BeginCurrent, Complete, FinishAll;
    if Active(s) {
      CompletesForward(s);
      BeginsForward(s);
      if !s.items[s.index].open && s.index !in openOk {
        StartNextForward(s.(index := s.index + 1), openOk);
      } else if s.items[s.index].fileSize == 0 {
        StartNextForward(Complete(OpenCurrent(s)), openOk);
      }
    } else {
      FinishesForward(s);
    }
  }

  lemma {:induction false} CompletesForward(s: State)
    requires Active(s)
    ensures var t := Complete(OpenCurrent(s));
            && t.index == s.index + 1 && |t.items| == |s.items| && t.offers == s.offers
            && |t.log| == |s.log| + 1 && t.log[..|s.log|] == s.log && t.log[|s.log|].index == s.index
    ensures OpenCurrent(s).index == s.index && |OpenCurrent(s).items| == |s.items|
  {
  }

  lemma {:induction false} BeginsForward(s: State)
    requires Active(s)
    ensures OpenCurrent(s).index == s.index && |OpenCurrent(s).items| == |s.items|
    ensures var t := BeginCurrent(OpenCurrent(s));
            t.index == s.index && |t.items| == |s.items| && t.offers == s.offers && t.log == s.log
  {
  }

  lemma {:induction false} FinishesForward(s: State)
    requires !Active(s)
    ensures var t := FinishAll(s);
            !Active(t) && t.offers == s.offers && t.log == s.log
  {
  }

  /** An answer to the current request brings the transfer closer to its end, in the lexicographic
      order of files left and bytes left, exactly when it is a failure, is empty, or some of it
      could be written; otherwise the same request is simply made again. */
  lemma {:induction false} ProgressIff(s: State, r: Request, reply: Reply, written: int, openOk: set<nat>)
    requires Inv(s) && Active(s) && r.streamId == s.streamId && Enabled(s, Answer(r, reply, written, openOk))
    ensures var t := Apply(s, Answer(r, reply, written, openOk));
            && (Closer(t, s) <==> reply.Failed? || reply.bytes == [] || written > 0)
            && (!Closer(t, s) ==> t == s)
  {
    hide StartNext, Inv, StoreBytes, Complete, RequestChunk, Closer, Advance;
    OnlyRequest(s, r);
    var s1 := s.(unanswered := s.unanswered - multiset{r});
    SkipsCloser(s, s1, openOk);
    if reply.Data? && reply.bytes != [] { StoresCloser(s, s1, r, reply.bytes, written, openOk); }
  }

  lemma {:induction false} OnlyRequest(s: State, r: Request)
    requires Inv(s) && Active(s) && r.streamId == s.streamId && r in s.unanswered
    ensures r == NextRequest(s) && s.items[s.index].open && s.items[s.index].received < s.items[s.index].fileSize
    ensures (s.unanswered - multiset{r}) + multiset{r} == s.unanswered
  {
    hide CompletedOk, IntactOk, HistoryOk;
  }

  lemma {:induction false} SkipsCloser(s: State, s1: State, openOk: set<nat>)
    requires Active(s) && s1.items == s.items && s1.index == s.index
    ensures Closer(StartNext(Advance(s1), openOk), s)
  {
    hide StartNext;
    StartNextForward(Advance(s1), openOk);
  }

  lemma {:induction false} StoresCloser(s: State, s1: State, r: Request, bytes: Bytes, written: int, openOk: set<nat>)
    requires Active(s) && s.items[s.index].open && s.items[s.index].received < s.items[s.index].fileSize
    requires r == NextRequest(s) && s1 == s.(unanswered := s1.unanswered)
    requires s1.unanswered + multiset{r} == s.unanswered && written <= |bytes|
    ensures var s2 := StoreBytes(s1, bytes, written);
            && Active(s2) && s2.index == s.index
            && var t := if s2.items[s2.index].received >= s2.items[s2.index].fileSize
                        then StartNext(Complete(s2), openOk) else RequestChunk(s2);
               && (Closer(t, s) <==> written > 0) && (!Closer(t, s) ==> t == s)
  {
    hide StartNext, WriteAt;
    var s2 := StoreBytes(s1, bytes, written);
    if s2.items[s2.index].received >= s2.items[s2.index].fileSize {
      StartNextForward(Complete(s2), openOk);
    }
  }

  predicate LeftBehind(t: State, s: State)
    requires |s.log| <= |t.log|
  {
    && (!Active(t) || t.index > s.index)
    && forall k :: |s.log| <= k < |t.log| ==> t.log[k].index != s.index
  }

  /** A file in transfer is given up exactly by a failure, whichever stream or session it belongs to, or
      by an empty reply to its own stream: a failure for an earlier request skips the current file. */
  lemma {:induction false} GivenUpIff(s: State, step: Step)
    requires Active(s) && Enabled(s, step) && (step.Answer? || step.LateAnswer?)
    ensures var t := Apply(s, step);
            && |s.log| <= |t.log|
            && (LeftBehind(t, s) <==>
                step.reply.Failed? || (step.request.streamId == s.streamId && step.reply.bytes == []))
  {
    hide Handle, LeftBehind;
    var s1 := if step.Answer? then s.(unanswered := s.unanswered - multiset{step.request})
        else s.(orphaned := s.orphaned - multiset{step.request});
    HandledGivesUpIff(s1, step.request.streamId, step.reply, step.written, step.openOk);
    var t := Apply(s, step);
    assert |s.log| <= |t.log| && (LeftBehind(t, s) <==> LeftBehind(t, s1)) by { SameLeft(t, s, s1); }
  }

  lemma {:induction false} SameLeft(t: State, s: State, s1: State)
    requires s1.log == s.log && s1.index == s.index && |s.log| <= |t.log|
    ensures LeftBehind(t, s) <==> LeftBehind(t, s1)
  {
  }

  lemma {:induction false} HandledGivesUpIff(s: State, streamId: nat, reply: Reply, written: int, openOk: set<nat>)
    requires Active(s) && (reply.Data? ==> written <= |reply.bytes|)
    ensures var t := Handle(s, streamId, reply, written, openOk);
            && |s.log| <= |t.log|
            && (LeftBehind(t, s) <==> reply.Failed? || (streamId == s.streamId && reply.bytes == []))
  {
    hide StartNext;
    StartNextForward(Advance(s), openOk);
    if reply.Data? && streamId == s.streamId && reply.bytes != [] {
      var s2 := StoreBytes(s, reply.bytes, written);
      if s2.items[s2.index].received >= s2.items[s2.index].fileSize {
        StartNextForward(Complete(s2), openOk);
        var t := StartNext(Complete(s2), openOk);
        assert t.log[|s.log|] == Complete(s2).log[|s.log|];
      }
    }
  }

  // An undisturbed transfer: every request answered in full and written in full.

  predicate Receiving(s: State) {
    Active(s) && s.index < |Current(s)|
  }

  /** All the bytes the current request asks for. */
  function FullReply(s: State): Reply
    requires Receiving(s)
  {
    var at, content := s.items[s.index].received, Current(s)[s.index].content;
    if at + NextRequest(s).count <= |content| then Data(content[at..at + NextRequest(s).count]) else Failed
  }

  function Full(s: State, openOk: set<nat>): State
    requires Receiving(s)
  {
    var reply := FullReply(s);
    ApplyAnswer(s, NextRequest(s), reply, if reply.Data? then |reply.bytes| else 0, openOk)
  }

  lemma {:induction false} FullKeeps(s: State, openOk: set<nat>)
    requires Inv(s) && Active(s)
    ensures Receiving(s) && FullReply(s).Data? && |FullReply(s).bytes| == NextRequest(s).count
    ensures Enabled(s, Answer(NextRequest(s), FullReply(s), NextRequest(s).count, openOk))
    ensures Inv(Full(s, openOk)) && Closer(Full(s, openOk), s)
  {
    var r := NextRequest(s);
    assert Current(s) == s.offers[r.offerNo];
    AnswerKeeps(s, r, FullReply(s), r.count, openOk);
    ProgressIff(s, r, FullReply(s), r.count, openOk);
  }

  function FullRun(s: State, n: nat, openOk: set<nat>): State
    decreases n
  {
    if n == 0 || !Receiving(s) then s else FullRun(Full(s, openOk), n - 1, openOk)
  }

  function ChunkCount(size: nat): nat {
    (size + 65536 - 1) / 65536
  }

  function ChunkSize(size: nat, k: nat): nat
    requires k * 65536 <= size
  {
    Min(65536, size - k * 65536)
  }

  /** Before the last chunk, a full answer moves the received position one chunk on. */
  lemma {:induction false} FullStep(s: State, openOk: set<nat>)
    requires Inv(s) && Active(s) && s.items[s.index].received + 65536 < s.items[s.index].fileSize
    ensures var t := Full(s, openOk); var item := s.items[s.index];
            && Active(t) && t.index == s.index && t.streamId == s.streamId && t.offers == s.offers && t.log == s.log
            && t.items == s.items[s.index := item.(received := item.received + 65536)]
  {
    hide StartNext, CompletedOk, IntactOk, HistoryOk, HandlesOk, RequestOk, WriteAt;
    FullKeeps(s, openOk);
  }

  lemma {:induction false} ChunkRun(s: State, k: nat, openOk: set<nat>)
    requires Inv(s) && Active(s) && s.items[s.index].received + k * 65536 < s.items[s.index].fileSize
    ensures var t := FullRun(s, k, openOk); var item := s.items[s.index];
            && Inv(t) && Active(t) && t.index == s.index && t.streamId == s.streamId && t.offers == s.offers
                && t.log == s.log
            && t.items == s.items[s.index := item.(received := item.received + k * 65536)]
    decreases k
  {
    hide Full, Inv;
    if k > 0 {
      FullStep(s, openOk);
      FullKeeps(s, openOk);
      ChunkRun(Full(s, openOk), k - 1, openOk);
    }
  }

  lemma {:induction false} FullRunAppend(s: State, m: nat, n: nat, openOk: set<nat>)
    ensures FullRun(s, m + n, openOk) == FullRun(FullRun(s, m, openOk), n, openOk)
    decreases m
  {
    hide Full;
    if m > 0 && Receiving(s) {
      FullRunAppend(Full(s, openOk), m - 1, n, openOk);
    }
  }

  /** `t` waits for range `k` of the file that was about to be received in `s`. */
  ghost predicate WaitsFor(t: State, s: State, k: nat)
    requires Active(s)
  {
    && Active(t) && t.index == s.index && t.log == s.log && k * 65536 < s.items[s.index].fileSize
    && NextRequest(t) in t.unanswered && NextRequest(t).streamId == s.streamId
    && NextRequest(t).position == k * 65536 && NextRequest(t).count == ChunkSize(s.items[s.index].fileSize, k)
  }

  lemma {:induction false} CurrentOnRequest(s: State)
    requires Inv(s) && Active(s)
    ensures NextRequest(s) in s.unanswered && NextRequest(s).position == s.items[s.index].received
    ensures s.items[s.index].received < s.items[s.index].fileSize
  {
  }

  lemma {:induction false} RunWaitsFor(s: State, k: nat, openOk: set<nat>)
    requires Inv(s) && Active(s) && s.items[s.index].received == 0 && k < ChunkCount(s.items[s.index].fileSize)
    ensures WaitsFor(FullRun(s, k, openOk), s, k)
  {
    hide Full, Inv, FullRun;
    ChunkRun(s, k, openOk);
    CurrentOnRequest(FullRun(s, k, openOk));
  }

  lemma {:induction false} OneMore(s: State, n: nat, openOk: set<nat>)
    requires Receiving(FullRun(s, n, openOk))
    ensures FullRun(s, n + 1, openOk) == Full(FullRun(s, n, openOk), openOk)
  {
    hide Full;
    FullRunAppend(s, n, 1, openOk);
  }

  /** A file of size s > 0 takes exactly ceil(s / 65536) requests: request k asks for range k, and
      the answer to the last one puts the file, with the offered bytes, into the completed list. */
  lemma {:induction false} ExactRequests(s: State, openOk: set<nat>)
    requires Inv(s) && Active(s) && s.items[s.index].received == 0
    ensures var n := ChunkCount(s.items[s.index].fileSize);
            && n > 0
            && (forall k :: 0 <= k < n ==> WaitsFor(FullRun(s, k, openOk), s, k))
            && var t := FullRun(s, n, openOk);
               && |t.log| > |s.log| && t.log[..|s.log|] == s.log
               && t.log[|s.log|] == Completion(OfferNo(s), s.index, s.items[s.index].localPath,
                   Current(s)[s.index].content)
  {
    hide Full, Inv, FullRun;
    CurrentOnRequest(s);
    FullKeeps(s, openOk);
    var n := ChunkCount(s.items[s.index].fileSize);
    forall k | 0 <= k < n ensures WaitsFor(FullRun(s, k, openOk), s, k) { RunWaitsFor(s, k, openOk); }
    var last := FullRun(s, n - 1, openOk);
    ChunkRun(s, n - 1, openOk);
    FullKeeps(last, openOk);
    OneMore(s, n - 1, openOk);
    LastAnswer(last, openOk);
  }

  lemma {:induction false} LastAnswer(s: State, openOk: set<nat>)
    requires Inv(s) && Active(s) && s.items[s.index].received + 65536 >= s.items[s.index].fileSize
    ensures var t := Full(s, openOk);
            && |t.log| > |s.log| && t.log[..|s.log|] == s.log
            && t.log[|s.log|] == Completion(OfferNo(s), s.index, s.items[s.index].localPath,
                Current(s)[s.index].content)
  {
    hide StartNext, CompletedOk, IntactOk, HistoryOk, RequestOk, HandlesOk, AtMostOne;
    FullKeeps(s, openOk);
    var r := NextRequest(s);
    var s1 := s.(unanswered := s.unanswered - multiset{r});
    AnsweredKeeps(s, r);
    StoreKeeps(s1, FullReply(s).bytes, r.count);
    var s2 := StoreBytes(s1, FullReply(s).bytes, r.count);
    StartNextForward(Complete(s2), openOk);
    assert Full(s, openOk).log[|s.log|] == Complete(s2).log[|s.log|];
    assert Complete(s2).log[..|s.log|] == s.log;
  }

  /** The requested ranges partition [0, size): every byte lies in exactly one of them. */
  lemma {:induction false} ChunksPartition(size: nat, x: nat, k: nat)
    requires x < size && k < ChunkCount(size)
    ensures k * 65536 < size && x / 65536 < ChunkCount(size)
    ensures k * 65536 <= x < k * 65536 + ChunkSize(size, k) <==> k == x / 65536
  {
  }

  // A whole list, undisturbed.

  function Iota(n: nat): seq<nat> {
    seq(n, i requires 0 <= i < n => i)
  }

  /** Nothing of the list was skipped so far. */
  ghost predicate NothingSkipped(s: State, openOk: set<nat>) {
    Active(s) ==> s.completedAt == Iota(s.index) && forall i :: 0 <= i < |s.items| ==> i in openOk
  }

  ghost predicate Delivered(t: State, s: State) {
    && !Active(t) && t.offers == s.offers && |t.deliveries| == |s.deliveries| + 1
    && var d := t.deliveries[|s.deliveries|];
       d.offerNo == OfferNo(s) && d.at == Iota(|s.items|)
  }

  lemma {:induction false} StartNextSkipsNothing(s: State, openOk: set<nat>)
    requires s.items != [] && s.index <= |s.items| && s.completedAt == Iota(s.index) && |s.completed| == s.index
    requires forall i :: 0 <= i < |s.items| ==> i in openOk
    ensures var t := StartNext(s, openOk);
            if Active(t) then NothingSkipped(t, openOk) && t.offers == s.offers && |t.items| == |s.items|
                && t.deliveries == s.deliveries
            else Delivered(t, s)
    decreases |s.items| - s.index
  {
    if Active(s) {
      var t := OpenCurrent(s);
      if s.items[s.index].fileSize == 0 {
        assert Complete(t).completedAt == Iota(s.index + 1);
        StartNextSkipsNothing(Complete(t), openOk);
      }
    }
  }

  lemma {:induction false} FullSkipsNothing(s: State, openOk: set<nat>)
    requires Inv(s) && Active(s) && NothingSkipped(s, openOk)
    ensures var t := Full(s, openOk);
            if Active(t) then NothingSkipped(t, openOk) && t.offers == s.offers && |t.items| == |s.items|
                && t.deliveries == s.deliveries
            else Delivered(t, s)
  {
    hide StartNext, IntactOk, HistoryOk, RequestOk, HandlesOk, AtMostOne;
    FullKeeps(s, openOk);
    var r := NextRequest(s);
    var s2 := StoreBytes(s.(unanswered := s.unanswered - multiset{r}), FullReply(s).bytes, r.count);
    if s2.items[s2.index].received >= s2.items[s2.index].fileSize {
      assert Complete(s2).completedAt == Iota(s.index + 1);
      StartNextSkipsNothing(Complete(s2), openOk);
    }
  }

  /** Enough full answers hand the whole list over, every file in its place. */
  lemma {:induction false} WholeListArrives(s: State, openOk: set<nat>) returns (n: nat)
    requires Inv(s) && Active(s) && NothingSkipped(s, openOk)
    ensures Inv(FullRun(s, n, openOk)) && Delivered(FullRun(s, n, openOk), s)
    decreases FilesLeft(s), BytesLeft(s)
  {
    hide Full, Inv;
    FullKeeps(s, openOk);
    FullSkipsNothing(s, openOk);
    var t := Full(s, openOk);
    if Active(t) {
      n := WholeListArrives(t, openOk);
      n := n + 1;
    } else {
      n := 1;
    }
  }

  // The serving side.

  /** The halves of a 64-bit position on the wire. */
  function Low(n: nat): nat { n % 0x1_0000_0000 }

  function High(n: nat): nat { (n / 0x1_0000_0000) % 0x1_0000_0000 }

  function Joined(high: nat, low: nat): nat { high * 0x1_0000_0000 + low }

  lemma JoinsBack(n: nat)
    requires n < 0x1_0000_0000_0000_0000
    ensures Joined(High(n), Low(n)) == n
  {
  }

  datatype HostFile = Missing | Directory | Unreadable(size: nat) | Regular(content: Bytes)

  const FILECONTENTS_SIZE: nat := 1
  const FILECONTENTS_RANGE: nat := 2

  datatype Served = ServeFailed | ServeSize(size: nat, width: nat) | ServeBytes(bytes: Bytes)

  function SizeOf(f: HostFile): nat {
    match f
    case Regular(content) => |content|
    case Unreadable(size) => size
    case _ => 0
  }

  /** At most `count` bytes from `offset` on. */
  function ReadAt(content: Bytes, offset: nat, count: nat): Bytes {
    var from := Min(offset, |content|);
    content[from..Min(from + count, |content|)]
  }

  /** `cliprdr_client_file_contents_request`, for the two flag bits `wantSize` and `wantRange`. A
      seek target of 2^63 or more is negative for the file API and fails. */
  function Serve(files: seq<HostFile>, listIndex: nat, wantSize: bool, wantRange: bool, low: nat, high: nat,
          count: nat): Served {
    if listIndex >= |files| || files[listIndex].Missing? then ServeFailed
    else if wantSize then
      if count == 4 then ServeSize(SizeOf(files[listIndex]) % 0x1_0000_0000, 4)
          else ServeSize(SizeOf(files[listIndex]), 8)
    else if !wantRange then ServeFailed
    else if files[listIndex].Directory? then ServeBytes([])
    else if files[listIndex].Unreadable? || Joined(high, low) >= 0x8000_0000_0000_0000 then ServeFailed
    else ServeBytes(ReadAt(files[listIndex].content, Joined(high, low), count))
  }

  /** The serving host still has the offered files, unchanged; a directory is offered as empty. */
  ghost predicate Unchanged(files: seq<HostFile>, offer: seq<Offer>) {
    |files| == |offer| && forall i :: 0 <= i < |offer| ==>
      && |offer[i].content| < 0x8000_0000_0000_0000
      && (files[i] == Regular(offer[i].content) || (files[i].Directory? && offer[i].content == []))
  }

  lemma {:induction false} ServesRange(files: seq<HostFile>, i: nat, at: nat, count: nat)
    requires i < |files| && files[i].Regular? && at + count <= |files[i].content| < 0x8000_0000_0000_0000
    ensures Serve(files, i, false, true, Low(at), High(at), count) == ServeBytes(files[i].content[at..at + count])
  {
    hide Low, High, Joined;
    JoinsBack(at);
  }

  /** What a range request is answered: the bytes from its position on, as many as asked for and as there
      are, for a regular file; nothing for a directory; and a failure in exactly the other cases. */
  lemma {:induction false} RangeAnswered(files: seq<HostFile>, i: nat, low: nat, high: nat, count: nat)
    requires low < 0x1_0000_0000
    ensures var at, reply := 0x1_0000_0000 * high + low, Serve(files, i, false, true, low, high, count);
            && (reply.ServeBytes? <==>
                  i < |files| && (files[i].Directory? || (files[i].Regular? && at < 0x8000_0000_0000_0000)))
            && !reply.ServeSize?
            && (reply.ServeBytes? && files[i].Directory? ==> reply.bytes == [])
            && (reply.ServeBytes? && files[i].Regular? ==>
                  var content := files[i].content;
                  if at + count <= |content| then reply.bytes == content[at..at + count]
                  else reply.bytes == if at <= |content| then content[at..] else [])
  {
  }

  /** A size request is answered for whatever exists, also for what cannot be read; the size flag comes
      first, and a request with neither flag fails. */
  lemma {:induction false} SizeAnswered(files: seq<HostFile>, i: nat, wantRange: bool, low: nat, high: nat, count: nat)
    ensures var reply := Serve(files, i, true, wantRange, low, high, count);
            && (reply.ServeSize? <==> i < |files| && !files[i].Missing?) && !reply.ServeBytes?
            && (reply.ServeSize? ==>
                  && reply.width == (if count == 4 then 4 else 8)
                  && (count != 4 ==>
                        && (files[i].Directory? ==> reply.size == 0)
                        && (files[i].Unreadable? ==> reply.size == files[i].size)
                        && (files[i].Regular? ==> reply.size == |files[i].content|)))
    ensures Serve(files, i, false, false, low, high, count) == ServeFailed
  {
  }

  lemma {:induction false} ActiveNonempty(s: State)
    requires Inv(s) && Active(s)
    ensures Receiving(s) && Current(s)[s.index].content != []
    ensures NextRequest(s).position + NextRequest(s).count <= |Current(s)[s.index].content|
  {
    hide CompletedOk, IntactOk, HistoryOk, RequestsOk, HandlesOk;
  }

  /** The handler answers the downloader's request with exactly the bytes it is waiting for. */
  lemma {:induction false} HandlerRepliesInFull(s: State, files: seq<HostFile>)
    requires Inv(s) && Active(s) && Unchanged(files, Current(s))
    ensures Receiving(s) && FullReply(s).Data?
    ensures var r := NextRequest(s);
            Serve(files, r.listIndex, false, true, Low(r.position), High(r.position), r.count) ==
                ServeBytes(FullReply(s).bytes)
  {
    hide Inv, Serve, Low, High, Full, Closer;
    FullKeeps(s, {});
    ActiveNonempty(s);
    ServesRange(files, s.index, NextRequest(s).position, NextRequest(s).count);
  }

  /** `n` rounds of the downloader against the handler. */
  ghost function CopyRounds(s: State, files: seq<HostFile>, n: nat, openOk: set<nat>): State
    decreases n
  {
    if n == 0 || !Receiving(s) then s
    else
      var r := NextRequest(s);
      var served := Serve(files, r.listIndex, false, true, Low(r.position), High(r.position), r.count);
      var reply := if served.ServeBytes? then Data(served.bytes) else Failed;
      CopyRounds(ApplyAnswer(s, r, reply, if served.ServeBytes? then |served.bytes| else 0, openOk), files, n - 1,
          openOk)
  }

  lemma {:induction false} ServedIsFull(s: State, files: seq<HostFile>, n: nat, openOk: set<nat>)
    requires Inv(s) && (Active(s) ==> Unchanged(files, Current(s))) && NothingSkipped(s, openOk)
    ensures CopyRounds(s, files, n, openOk) == FullRun(s, n, openOk)
    decreases n
  {
    hide Inv, ApplyAnswer, Serve, FullReply;
    if n > 0 && Active(s) {
      HandlerRepliesInFull(s, files);
      FullKeeps(s, openOk);
      FullSkipsNothing(s, openOk);
      ServedIsFull(Full(s, openOk), files, n - 1, openOk);
    }
  }
}
