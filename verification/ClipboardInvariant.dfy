/** What every step of a clipboard download keeps, and what follows for every run. */
module ClipboardInvariant {
  import opened Basics
  import opened ClipboardTransfer

  /** List positions below this may have had their local file emptied. */
  function Started(s: State): nat {
    if Active(s) && s.items[s.index].open then s.index + 1 else s.index
  }

  ghost predicate ItemsMatch(s: State) {
    s.items == [] ||
    (|s.items| == |Current(s)| && forall i :: 0 <= i < |s.items| ==>
       && s.items[i].localPath == Current(s)[i].localPath
       && s.items[i].fileSize == |Current(s)[i].content| < 0x1_0000_0000_0000_0000)
  }

  /** The request is about a file that was really offered, within its bounds, and not from the future. */
  ghost predicate RequestOk(offers: seq<seq<Offer>>, streamId: nat, r: Request) {
    && r.streamId <= streamId
    && r.offerNo < |offers| && r.listIndex < |offers[r.offerNo]|
    && r.position + r.count <= |offers[r.offerNo][r.listIndex].content|
  }

  /** Stop and wait: at most one unanswered request carries the current stream id. */
  ghost predicate AtMostOne(unanswered: multiset<Request>, streamId: nat) {
    && (forall r, q :: r in unanswered && q in unanswered && r.streamId == q.streamId == streamId ==> r == q)
    && (forall r :: r in unanswered && r.streamId == streamId ==> unanswered[r] == 1)
  }

  ghost predicate RequestsOk(offers: seq<seq<Offer>>, streamId: nat, unanswered: multiset<Request>) {
    AtMostOne(unanswered, streamId) && forall r :: r in unanswered ==> RequestOk(offers, streamId, r)
  }

  ghost predicate Ascending(at: seq<nat>, bound: nat) {
    && (forall k, l :: 0 <= k < l < |at| ==> at[k] < at[l])
    && (forall k :: 0 <= k < |at| ==> at[k] < bound)
  }

  ghost predicate CompletedOk(s: State) {
    && |s.completedAt| == |s.completed|
    && Ascending(s.completedAt, Min(s.index, |s.items|))
    && (forall k :: 0 <= k < |s.completed| ==> s.completed[k] == s.items[s.completedAt[k]].localPath)
  }

  /** No list position after `i` and below `bound` stores to the same local path. */
  ghost predicate Unshared(offer: seq<Offer>, i: nat, bound: nat)
    requires i < |offer|
  {
    forall j :: i < j < bound && j < |offer| ==> offer[j].localPath != offer[i].localPath
  }

  /** A completed file keeps the offered bytes until a later file of the list takes its path. */
  ghost predicate IntactOk(s: State)
    requires ItemsMatch(s) && CompletedOk(s)
  {
    forall k :: 0 <= k < |s.completed| && Unshared(Current(s), s.completedAt[k], Started(s)) ==>
      FileAt(s.disk, s.completed[k]) == Current(s)[s.completedAt[k]].content
  }

  ghost predicate CompletionOk(offers: seq<seq<Offer>>, c: Completion) {
    && c.offerNo < |offers| && c.index < |offers[c.offerNo]|
    && c.localPath == offers[c.offerNo][c.index].localPath
    && c.bytes == offers[c.offerNo][c.index].content
  }

  ghost predicate DeliveryOk(offers: seq<seq<Offer>>, d: Delivery) {
    && d.offerNo < |offers| && |d.at| == |d.paths| && Ascending(d.at, |offers[d.offerNo]|)
    && forall k :: 0 <= k < |d.paths| ==>
         && d.paths[k] == offers[d.offerNo][d.at[k]].localPath
         && (Unshared(offers[d.offerNo], d.at[k], |offers[d.offerNo]|) ==>
               FileAt(d.disk, d.paths[k]) == offers[d.offerNo][d.at[k]].content)
  }

  ghost predicate HistoryOk(offers: seq<seq<Offer>>, log: seq<Completion>, deliveries: seq<Delivery>) {
    && (forall k :: 0 <= k < |log| ==> CompletionOk(offers, log[k]))
    && (forall k :: 0 <= k < |deliveries| ==> DeliveryOk(offers, deliveries[k]))
  }

  /** Only the current item may hold a file handle. */
  ghost predicate HandlesOk(s: State) {
    forall i :: 0 <= i < |s.items| && s.items[i].open ==> i == s.index
  }

  ghost predicate Core(s: State) {
    && ItemsMatch(s) && CompletedOk(s) && IntactOk(s) && HandlesOk(s)
    && RequestsOk(s.offers, s.streamId, s.unanswered)
    && HistoryOk(s.offers, s.log, s.deliveries)
  }

  /** The current file is open, holds exactly the bytes received, and its next range is on request. */
  ghost predicate ActiveOk(s: State)
    requires ItemsMatch(s)
  {
    Active(s) ==>
      var item := s.items[s.index];
      && item.open && item.received < item.fileSize
      && FileAt(s.disk, item.localPath) == Current(s)[s.index].content[..item.received]
      && NextRequest(s) in s.unanswered
  }

  ghost predicate Inv(s: State) {
    Core(s) && ActiveOk(s)
  }

  lemma {:induction false} AdvanceKeeps(s: State)
    requires Core(s) && Active(s)
    ensures Core(Advance(s)) && forall i :: 0 <= i < |Advance(s).items| ==> !Advance(s).items[i].open
  {
    var t := Advance(s);
    forall k | 0 <= k < |t.completed| && Unshared(Current(t), t.completedAt[k], Started(t))
      ensures FileAt(t.disk, t.completed[k]) == Current(t)[t.completedAt[k]].content
    {
      assert Unshared(Current(s), s.completedAt[k], Started(s));
    }
  }

  /** Recording a completion touches neither the items nor the wire nor the disk. */
  lemma {:induction false} RecordKeeps(s: State, i: nat)
    requires Core(s) && i + 1 == s.index <= |s.items| && (forall k :: 0 <= k < |s.completedAt| ==> s.completedAt[k] < i)
    requires forall k :: 0 <= k < |s.items| ==> !s.items[k].open
    requires FileAt(s.disk, s.items[i].localPath) == Current(s)[i].content
    ensures Core(s.(completed := s.completed + [s.items[i].localPath], completedAt := s.completedAt + [i],
                    log := s.log + [Completion(OfferNo(s), i, s.items[i].localPath,
                        FileAt(s.disk, s.items[i].localPath))]))
  {
    hide RequestsOk, DeliveryOk;
    var path := s.items[i].localPath;
    var t := s.(completed := s.completed + [path], completedAt := s.completedAt + [i],
                log := s.log + [Completion(OfferNo(s), i, path, FileAt(s.disk, path))]);
    assert CompletionOk(t.offers, t.log[|s.log|]);
    forall k | 0 <= k < |t.completed| && Unshared(Current(t), t.completedAt[k], Started(t))
      ensures FileAt(t.disk, t.completed[k]) == Current(t)[t.completedAt[k]].content
    {
      if k < |s.completed| { assert Unshared(Current(s), s.completedAt[k], Started(s)); }
    }
  }

  lemma {:induction false} CompleteKeeps(s: State)
    requires Core(s) && Active(s) && s.items[s.index].open
    requires FileAt(s.disk, s.items[s.index].localPath) == Current(s)[s.index].content
    ensures Core(Complete(s)) && forall i :: 0 <= i < |Complete(s).items| ==> !Complete(s).items[i].open
  {
    AdvanceKeeps(s);
    RecordKeeps(Advance(s), s.index);
  }

  lemma {:induction false} OpenKeeps(s: State)
    requires Core(s) && Active(s) && !s.items[s.index].open
    ensures var t := OpenCurrent(s);
            Core(t) && t.items[t.index].open && FileAt(t.disk, t.items[t.index].localPath) == []
  {
    var t := OpenCurrent(s);
    forall k | 0 <= k < |t.completed| && Unshared(Current(t), t.completedAt[k], Started(t))
      ensures FileAt(t.disk, t.completed[k]) == Current(t)[t.completedAt[k]].content
    {
      assert Unshared(Current(s), s.completedAt[k], Started(s));
      assert Current(t)[t.index].localPath != t.completed[k];
    }
  }

  lemma {:induction false} RequestKeeps(s: State)
    requires Core(s) && Active(s) && s.items[s.index].open && s.items[s.index].received < s.items[s.index].fileSize
    requires FileAt(s.disk, s.items[s.index].localPath) == Current(s)[s.index].content[..s.items[s.index].received]
    requires forall r :: r in s.unanswered ==> r.streamId < s.streamId
    ensures Inv(RequestChunk(s))
  {
    var t, r := RequestChunk(s), NextRequest(s);
    assert RequestOk(t.offers, t.streamId, r);
    forall q | q in t.unanswered ensures RequestOk(t.offers, t.streamId, q) {
      if q != r { assert q in s.unanswered; }
    }
    assert r !in s.unanswered && NextRequest(t) == r;
    assert IntactOk(t) by { assert Started(t) == Started(s); }
  }

  lemma {:induction false} BeginKeeps(s: State)
    requires Core(s) && Active(s) && s.items[s.index].open && s.items[s.index].fileSize > 0
    requires FileAt(s.disk, s.items[s.index].localPath) == []
    ensures Inv(BeginCurrent(s))
  {
    hide HistoryOk, RequestChunk;
    var t := s.(items := s.items[s.index := s.items[s.index].(received := 0)], streamId := s.streamId + 1);
    forall r | r in t.unanswered ensures RequestOk(t.offers, t.streamId, r) && r.streamId < t.streamId {
      assert RequestOk(s.offers, s.streamId, r);
    }
    assert IntactOk(t) by { assert Started(t) == Started(s); }
    RequestKeeps(t);
  }

  lemma {:induction false} FinishKeeps(s: State)
    requires Core(s) && !Active(s)
    ensures Inv(FinishAll(s))
  {
    var t := FinishAll(s);
    if s.completed != [] {
      assert s.completedAt[0] < |s.items|;
      var d := t.deliveries[|s.deliveries|];
      var offer := s.offers[d.offerNo];
      assert offer == Current(s);
      forall k | 0 <= k < |d.paths| && Unshared(offer, d.at[k], |offer|)
        ensures FileAt(d.disk, d.paths[k]) == offer[d.at[k]].content
      {
        assert Unshared(offer, s.completedAt[k], Started(s));
      }
      assert DeliveryOk(t.offers, d);
    }
  }

  lemma {:induction false} StartNextKeeps(s: State, openOk: set<nat>)
    requires Core(s) && (Active(s) ==> !s.items[s.index].open)
    ensures Inv(StartNext(s, openOk))
    decreases |s.items| - s.index
  {
    if !Active(s) {
      FinishKeeps(s);
    } else if s.index !in openOk {
      var t := s.(index := s.index + 1);
      SkipKeeps(s);
      StartNextKeeps(t, openOk);
    } else {
      OpenKeeps(s);
      var t := OpenCurrent(s);
      if s.items[s.index].fileSize == 0 {
        CompleteKeeps(t);
        StartNextKeeps(Complete(t), openOk);
      } else {
        BeginKeeps(t);
      }
    }
  }

  lemma {:induction false} SkipKeeps(s: State)
    requires Core(s) && Active(s) && !s.items[s.index].open
    ensures Core(s.(index := s.index + 1))
    ensures s.index + 1 < |s.items| ==> !s.items[s.index + 1].open
  {
    assert s.items[s.index := s.items[s.index].(open := false)] == s.items;
    AdvanceKeeps(s);
  }

  lemma {:induction false} WriteExtends(content: Bytes, at: nat, bytes: Bytes, written: nat)
    requires at + |bytes| <= |content| && written <= |bytes| && bytes == content[at..at + |bytes|]
    ensures WriteAt(content[..at], at, bytes[..written]) == content[..at + written]
  {
    assert bytes[..written] == content[at..at + written];
  }

  lemma {:induction false} StoreKeeps(s: State, bytes: Bytes, written: int)
    requires Core(s) && Active(s) && s.items[s.index].open && 0 < written <= |bytes|
    requires var item := s.items[s.index];
             && item.received + |bytes| <= item.fileSize
             && FileAt(s.disk, item.localPath) == Current(s)[s.index].content[..item.received]
             && bytes == Current(s)[s.index].content[item.received..item.received + |bytes|]
    ensures var t := StoreBytes(s, bytes, written); var item := t.items[t.index];
            && Core(t) && item.received == s.items[s.index].received + written
            && FileAt(t.disk, item.localPath) == Current(t)[t.index].content[..item.received]
  {
    var t := StoreBytes(s, bytes, written);
    var content, at := Current(s)[s.index].content, s.items[s.index].received;
    WriteExtends(content, at, bytes, written);
    forall k | 0 <= k < |t.completed| && Unshared(Current(t), t.completedAt[k], Started(t))
      ensures FileAt(t.disk, t.completed[k]) == Current(t)[t.completedAt[k]].content
    {
      assert Unshared(Current(s), s.completedAt[k], Started(s));
      assert Current(t)[t.index].localPath != t.completed[k];
    }
  }

  /** Taking an answered request off the wire. */
  lemma {:induction false} AnsweredRequests(offers: seq<seq<Offer>>, streamId: nat, wire: multiset<Request>, r: Request)
    requires RequestsOk(offers, streamId, wire) && r in wire
    ensures RequestsOk(offers, streamId, wire - multiset{r})
    ensures r.streamId == streamId ==> forall q :: q in wire - multiset{r} ==> q.streamId < streamId
    ensures r.streamId != streamId ==> forall q :: q in wire && q.streamId == streamId ==> q in wire - multiset{r}
  {
    forall q | q in wire - multiset{r} ensures RequestOk(offers, streamId, q) { assert q in wire; }
  }

  lemma {:induction false} AnsweredKeeps(s: State, r: Request)
    requires Core(s) && r in s.unanswered
    ensures Core(s.(unanswered := s.unanswered - multiset{r}))
  {
    AnsweredRequests(s.offers, s.streamId, s.unanswered, r);
    assert IntactOk(s.(unanswered := s.unanswered - multiset{r}));
  }

  lemma {:induction false} GiveUpKeeps(s: State, openOk: set<nat>)
    requires Core(s) && Active(s)
    ensures Inv(StartNext(Advance(s), openOk))
  {
    AdvanceKeeps(s);
    StartNextKeeps(Advance(s), openOk);
  }

  lemma {:induction false} StaleDataKeeps(s: State, r: Request)
    requires Inv(s) && r in s.unanswered && (r.streamId != s.streamId || !Active(s))
    ensures Inv(s.(unanswered := s.unanswered - multiset{r}))
  {
    AnsweredKeeps(s, r);
    AnsweredRequests(s.offers, s.streamId, s.unanswered, r);
    if Active(s) { assert NextRequest(s.(unanswered := s.unanswered - multiset{r})) == NextRequest(s); }
  }

  lemma {:induction false} AnswerKeeps(s: State, r: Request, reply: Reply, written: int, openOk: set<nat>)
    requires Inv(s) && Enabled(s, Answer(r, reply, written, openOk))
    ensures Inv(ApplyAnswer(s, r, reply, written, openOk))
  {
    if !Active(s) || (reply.Data? && r.streamId != s.streamId) {
      StaleDataKeeps(s, r);
    } else {
      if reply.Failed? || reply.bytes == [] {
        AnsweredKeeps(s, r);
        GiveUpKeeps(s.(unanswered := s.unanswered - multiset{r}), openOk);
      } else {
        CurrentDataKeeps(s, r, reply.bytes, written, openOk);
      }
    }
  }

  lemma {:induction false} CurrentDataKeeps(s: State, r: Request, bytes: Bytes, written: int, openOk: set<nat>)
    requires Inv(s) && Active(s) && r in s.unanswered && r.streamId == s.streamId
    requires bytes != [] && Honest(s, r, Data(bytes)) && written <= |bytes|
    ensures Inv(ApplyAnswer(s, r, Data(bytes), written, openOk))
  {
    hide StartNext, CompletedOk, IntactOk, HistoryOk, HandlesOk, StoreBytes, Complete, RequestChunk;
    var s1 := s.(unanswered := s.unanswered - multiset{r});
    assert r == NextRequest(s) == NextRequest(s1);
    AnsweredKeeps(s, r);
    AnsweredRequests(s.offers, s.streamId, s.unanswered, r);
    DataKeeps(s1, r, bytes, written, openOk);
  }

  lemma {:induction false} DataKeeps(s: State, r: Request, bytes: Bytes, written: int, openOk: set<nat>)
    requires Core(s) && Active(s) && s.items[s.index].open && s.items[s.index].received < s.items[s.index].fileSize
    requires FileAt(s.disk, s.items[s.index].localPath) == Current(s)[s.index].content[..s.items[s.index].received]
    requires forall q :: q in s.unanswered ==> q.streamId < s.streamId
    requires r == NextRequest(s) && bytes != [] && Honest(s, r, Data(bytes)) && written <= |bytes|
    ensures var s2 := StoreBytes(s, bytes, written);
            Inv(if s2.items[s2.index].received >= s2.items[s2.index].fileSize
                then StartNext(Complete(s2), openOk) else RequestChunk(s2))
  {
    var s2 := StoreBytes(s, bytes, written);
    if written > 0 { StoreKeeps(s, bytes, written); }
    if s2.items[s2.index].received >= s2.items[s2.index].fileSize {
      CompleteKeeps(s2);
      StartNextKeeps(Complete(s2), openOk);
    } else {
      RequestKeeps(s2);
    }
  }

  lemma {:induction false} DescriptorsKeep(s: State, offer: seq<Offer>, openOk: set<nat>)
    requires Inv(s) && Enabled(s, Descriptors(offer, openOk))
    ensures Inv(ApplyDescriptors(s, offer, openOk))
  {
    var t := s.(items := ItemsFor(offer), completed := [], completedAt := [], index := 0, offers := s.offers + [offer]);
    forall r | r in t.unanswered ensures RequestOk(t.offers, t.streamId, r) {
      assert RequestOk(s.offers, s.streamId, r);
    }
    forall k | 0 <= k < |t.log| ensures CompletionOk(t.offers, t.log[k]) { assert CompletionOk(s.offers, s.log[k]); }
    forall k | 0 <= k < |t.deliveries| ensures DeliveryOk(t.offers, t.deliveries[k]) {
      assert DeliveryOk(s.offers, s.deliveries[k]);
    }
    if offer != [] { StartNextKeeps(t, openOk); }
  }

  lemma {:induction false} CloseKeeps(s: State)
    requires Inv(s)
    ensures Inv(ApplyClose(s))
  {
  }

  /** What a run must never show: a second unanswered request of the current stream, or a completed
      file with other bytes than offered. */
  ghost predicate Sound(s: State) {
    AtMostOne(s.unanswered, s.streamId) && forall k :: 0 <= k < |s.log| ==> CompletionOk(s.offers, s.log[k])
  }

  /** The local file once late data was stored. */
  lemma {:induction false} LateBytes(s: State, bytes: Bytes, written: int)
    requires Inv(s) && Active(s) && 0 < written <= |bytes|
    ensures var item, content, t := s.items[s.index], Current(s)[s.index].content, StoreBytes(s, bytes, written);
            && t.index == s.index && |t.items| == |s.items| && t.items[t.index].received == item.received + written
            && FileAt(t.disk, item.localPath) == content[..item.received] + bytes[..written]
            && t.items[t.index].localPath == item.localPath && t.log == s.log && t.offers == s.offers
            && t.items[t.index].fileSize == item.fileSize && t.unanswered == s.unanswered && t.streamId == s.streamId
  {
    hide CompletedOk, IntactOk, HistoryOk, RequestsOk, HandlesOk;
  }

  /** Completing a file with other bytes than offered shows in the log for good. */
  lemma {:induction false} WrongBytesLogged(s: State, openOk: set<nat>)
    requires Active(s) && s.offers != [] && s.index < |Current(s)|
    requires FileAt(s.disk, s.items[s.index].localPath) != Current(s)[s.index].content
    ensures !Sound(StartNext(Complete(s), openOk))
  {
    hide StartNext;
    var t := Complete(s);
    LogGrows(t, openOk);
    var u := StartNext(t, openOk);
    assert u.log[|s.log|] == t.log[|s.log|];
    assert !CompletionOk(u.offers, u.log[|s.log|]);
  }

  lemma {:induction false} LogGrows(s: State, openOk: set<nat>)
    ensures var t := StartNext(s, openOk); |s.log| <= |t.log| && t.log[..|s.log|] == s.log && t.offers == s.offers
    decreases |s.items| - s.index
  {
    if Active(s) {
      if !s.items[s.index].open && s.index !in openOk {
        LogGrows(s.(index := s.index + 1), openOk);
      } else if s.items[s.index].fileSize == 0 {
        LogGrows(Complete(OpenCurrent(s)), openOk);
      }
    }
  }

  /** A second request goes out while the first is still unanswered. */
  lemma {:induction false} SecondRequest(s: State, t: State)
    requires Inv(s) && Active(s) && Active(t) && t.items[t.index].received < t.items[t.index].fileSize
    requires t.unanswered == s.unanswered && t.streamId == s.streamId
    ensures !Sound(RequestChunk(t))
  {
    hide CompletedOk, IntactOk, HistoryOk, HandlesOk, RequestOk;
    var q, r, u := NextRequest(s), NextRequest(t), RequestChunk(t);
    assert q in u.unanswered && r in u.unanswered && q.streamId == r.streamId == u.streamId;
    if q == r { assert u.unanswered[r] >= 2; }
  }

  /** Late data that passes for the current stream's is sound exactly when it is harmless. */
  lemma {:induction false} LateDataIff(s: State, r: Request, bytes: Bytes, written: int, openOk: set<nat>)
    requires Inv(s) && Active(s) && r.streamId == s.streamId && bytes != [] && written <= |bytes|
    ensures var t := Handle(s, r.streamId, Data(bytes), written, openOk);
            if Harmless(s, r, Data(bytes), written) then Inv(t) else !Sound(t)
  {
    hide CompletedOk, IntactOk, HistoryOk, RequestsOk, HandlesOk, Sound, StartNext;
    var item, content := s.items[s.index], Current(s)[s.index].content;
    var t := StoreBytes(s, bytes, written);
    if written <= 0 {
      SecondRequest(s, t);
    } else {
      LateBytes(s, bytes, written);
      if item.received + written < item.fileSize {
        SecondRequest(s, t);
      } else if Harmless(s, r, Data(bytes), written) {
        assert content[..item.received] + bytes[..written] == content;
        LateCompletes(s, bytes, written, openOk);
      } else {
        LateDiffers(content, item.received, bytes, written);
        WrongBytesLogged(t, openOk);
      }
    }
  }

  lemma {:induction false} LateDiffers(content: Bytes, at: nat, bytes: Bytes, written: int)
    requires at <= |content| && 0 <= written <= |bytes|
    requires !(at + written == |content| && bytes[..written] == content[at..])
    ensures content[..at] + bytes[..written] != content
  {
    var whole := content[..at] + bytes[..written];
    assert whole[at..] == bytes[..written];
  }

  lemma {:induction false} LateCompletes(s: State, bytes: Bytes, written: int, openOk: set<nat>)
    requires Inv(s) && Active(s) && 0 < written <= |bytes|
    requires s.items[s.index].received + written == s.items[s.index].fileSize
    requires bytes[..written] == Current(s)[s.index].content[s.items[s.index].received..]
    ensures Inv(StartNext(Complete(StoreBytes(s, bytes, written)), openOk))
  {
    hide CompletedOk, IntactOk, HistoryOk, RequestsOk, HandlesOk, StartNext;
    var t := StoreBytes(s, bytes, written);
    assert StoreBytes(s, bytes[..written], written) == t by { assert bytes[..written][..written] == bytes[..written]; }
    StoreKeeps(s, bytes[..written], written);
    CompleteKeeps(t);
    StartNextKeeps(Complete(t), openOk);
  }

  lemma {:induction false} LateAnswerIff(s: State, step: Step)
    requires Inv(s) && step.LateAnswer? && Enabled(s, step)
    ensures if Harmless(s, step.request, step.reply, step.written) then Inv(Apply(s, step)) else !Sound(Apply(s, step))
  {
    hide StartNext, Sound, CompletedOk, IntactOk, HistoryOk, RequestsOk, HandlesOk;
    var s1 := s.(orphaned := s.orphaned - multiset{step.request});
    OrphansApart(s, s1.orphaned);
    if Active(s) && (step.reply.Failed? || (step.request.streamId == s.streamId && step.reply.bytes == [])) {
      GiveUpKeeps(s1, step.openOk);
    } else if Active(s) && step.request.streamId == s.streamId {
      LateDataIff(s1, step.request, step.reply.bytes, step.written, step.openOk);
    }
  }

  lemma {:induction false} OrphansApart(s: State, orphaned: multiset<Request>)
    requires Inv(s)
    ensures Inv(s.(orphaned := orphaned))
  {
    hide CompletedOk, HistoryOk, RequestsOk, HandlesOk;
    var t := s.(orphaned := orphaned);
    assert Started(t) == Started(s) && (Active(s) ==> NextRequest(t) == NextRequest(s));
    assert CompletedOk(t) && IntactOk(t) && HandlesOk(t) by { OrphansApartToo(s, orphaned); }
  }

  lemma {:induction false} OrphansApartToo(s: State, orphaned: multiset<Request>)
    requires ItemsMatch(s) && CompletedOk(s) && IntactOk(s) && HandlesOk(s)
    ensures var t := s.(orphaned := orphaned); ItemsMatch(t) && CompletedOk(t) && IntactOk(t) && HandlesOk(t)
  {
    assert Started(s.(orphaned := orphaned)) == Started(s);
  }

  lemma {:induction false} InvStep(s: State, step: Step)
    requires Inv(s) && Enabled(s, step)
    requires step.LateAnswer? ==> Harmless(s, step.request, step.reply, step.written)
    ensures Inv(Apply(s, step))
  {
    hide Inv, Harmless;
    match step
    case Descriptors(offer, openOk) => DescriptorsKeep(s, offer, openOk);
    case Answer(r, reply, written, openOk) => AnswerKeeps(s, r, reply, written, openOk);
    case LateAnswer(_, _, _, _) => LateAnswerIff(s, step);
    case Close => CloseKeeps(s);
  }

  lemma {:induction false} ExecInv(steps: seq<Step>, s: State)
    requires Exec(steps) == Some(s) && Tidy(steps)
    ensures Inv(s)
    decreases |steps|
  {
    hide Inv, Harmless, Apply, Enabled;
    if steps == [] {
      FreshInv();
    } else {
      var before := Exec(steps[..|steps| - 1]).value;
      ExecInv(steps[..|steps| - 1], before);
      InvStep(before, steps[|steps| - 1]);
    }
  }

  lemma {:induction false} FreshInv()
    ensures Inv(FRESH)
  {
  }

  lemma {:induction false} InvSound(s: State)
    requires Inv(s)
    ensures Sound(s)
  {
    hide CompletedOk, IntactOk, HandlesOk, RequestOk;
  }

  /** Exactly when a run is sound throughout: no late answer of a closed session does harm. */
  lemma {:induction false} SoundRunIff(steps: seq<Step>)
    requires Exec(steps).Some?
    ensures Tidy(steps) <==> forall n :: 0 <= n <= |steps| ==> Exec(steps[..n]).Some? && Sound(Exec(steps[..n]).value)
  {
    hide Inv, Harmless, Apply, Enabled, Sound;
    assert steps[..|steps|] == steps;
    if Tidy(steps) {
      ExecInv(steps, Exec(steps).value);
      InvSound(Exec(steps).value);
    }
    if steps != [] {
      var before, last := steps[..|steps| - 1], steps[|steps| - 1];
      SoundRunIff(before);
      assert forall n :: 0 <= n < |steps| ==> before[..n] == steps[..n];
      if Tidy(before) && !Tidy(steps) {
        ExecInv(before, Exec(before).value);
        LateAnswerIff(Exec(before).value, last);
      }
    }
  }

  /** Transfer correctness, over every interleaving of descriptor lists, answers to earlier streams,
      failures, short reads, short writes and sessions whose late answers do no harm: each file holds
      the offered bytes when it enters the completed list; each list handed over is an in-order
      selection of the offered paths, and every path no later file of its list shares still holds the
      offered bytes then. */
  lemma TransferCorrect(s: State)
    requires Reachable(s)
    ensures forall k :: 0 <= k < |s.log| ==> CompletionOk(s.offers, s.log[k])
    ensures forall k :: 0 <= k < |s.deliveries| ==> DeliveryOk(s.offers, s.deliveries[k])
    ensures ItemsMatch(s) && CompletedOk(s)
  {
    var steps :| Exec(steps) == Some(s) && Tidy(steps);
    ExecInv(steps, s);
  }

  /** Stop and wait, across restarts and such sessions: at most one request with the current stream id
      is unanswered, while a file is in transfer it is the one for the next missing range, only the
      item at the current index holds an open handle, and a successful answer to an earlier stream
      changes nothing but the wire. */
  lemma StopAndWait(s: State)
    requires Reachable(s)
    ensures AtMostOne(s.unanswered, s.streamId)
    ensures Active(s) ==> s.items[s.index].received < s.items[s.index].fileSize && NextRequest(s) in s.unanswered
    ensures forall i :: 0 <= i < |s.items| ==> (s.items[i].open <==> i == s.index)
    ensures forall r, bytes, written, openOk ::
              Enabled(s, Answer(r, Data(bytes), written, openOk)) && r.streamId != s.streamId ==>
                Apply(s, Answer(r, Data(bytes), written, openOk)) == s.(unanswered := s.unanswered - multiset{r})
  {
    var steps :| Exec(steps) == Some(s) && Tidy(steps);
    ExecInv(steps, s);
  }

  lemma {:induction false} Then(steps: seq<Step>, s: State, step: Step) returns (more: seq<Step>, t: State)
    requires Exec(steps) == Some(s) && Enabled(s, step)
    ensures more == steps + [step] && t == Apply(s, step) && Exec(more) == Some(t)
  {
    hide Apply, Enabled;
    more, t := steps + [step], Apply(s, step);
    assert more[..|more| - 1] == steps;
  }

  /** A list of one file of one byte is put on request. */
  lemma {:induction false} OneByteFile(s: State, path: Path, b: Byte)
    ensures var t := ApplyDescriptors(s, [Offer(path, [b])], {0});
            && t.items == [Item(path, 1, 0, true)] && t.index == 0 && t.streamId == s.streamId + 1
            && t.unanswered == s.unanswered + multiset{Request(s.streamId + 1, 0, 0, 1, |s.offers|)}
            && t.offers == s.offers + [[Offer(path, [b])]] && t.log == s.log && t.orphaned == s.orphaned
            && t.disk == s.disk[path := []]
  {
    var s1 := s.(items := [Item(path, 1, 0, false)], completed := [], completedAt := [], index := 0,
        offers := s.offers + [[Offer(path, [b])]]);
    assert ItemsFor([Offer(path, [b])]) == s1.items;
    var s2 := OpenCurrent(s1);
    assert StartNext(s1, {0}) == BeginCurrent(s2);
  }

  /** A list, a close, another list: the old request for the first file is still on the wire. */
  lemma {:induction false} ListCloseList() returns (steps: seq<Step>, s: State)
    ensures Exec(steps) == Some(s) && s.items == [Item([2], 1, 0, true)] && s.index == 0 && s.streamId == 1
    ensures s.offers == [[Offer([1], [7])], [Offer([2], [8])]] && s.log == [] && s.disk == s.disk[[2] := []]
    ensures s.orphaned == multiset{Request(1, 0, 0, 1, 0)}
  {
    hide Exec, StartNext, ApplyDescriptors;
    assert Exec([]) == Some(FRESH) by { NothingYet(); }
    steps, s := Then([], FRESH, Descriptors([Offer([1], [7])], {0}));
    OneByteFile(FRESH, [1], 7);
    steps, s := Then(steps, s, Close);
    OneByteFile(s, [2], 8);
    steps, s := Then(steps, s, Descriptors([Offer([2], [8])], {0}));
  }

  /** The harm is real: after a list, a close and another list the closed session's answer to its
      stream 1 completes the new file with the old bytes. */
  lemma {:induction false} LateAnswerCorrupts() returns (steps: seq<Step>, s: State)
    ensures Exec(steps) == Some(s) && s.log == [Completion(1, 0, [2], [7])]
    ensures |s.offers| == 2 && s.offers[1] == [Offer([2], [8])]
  {
    hide Exec, Handle;
    steps, s := ListCloseList();
    var r := Request(1, 0, 0, 1, 0);
    OneByteStored(s.(orphaned := s.orphaned - multiset{r}));
    steps, s := Then(steps, s, LateAnswer(r, Data([7]), 1, {}));
  }

  lemma {:induction false} NothingYet()
    ensures Exec([]) == Some(FRESH)
  {
  }

  lemma {:induction false} OneByteStored(s: State)
    requires s.items == [Item([2], 1, 0, true)] && s.index == 0 && s.disk == s.disk[[2] := []] && |s.offers| == 2
        && s.log == []
    ensures var t := Handle(s, s.streamId, Data([7]), 1, {});
            t.log == [Completion(1, 0, [2], [7])] && t.offers == s.offers
  {
    hide StartNext;
    var t := StoreBytes(s, [7], 1);
    assert FileAt(s.disk, [2]) == [] && WriteAt([], 0, [7]) == [7];
    assert t.items[0].received == 1 && FileAt(t.disk, [2]) == [7];
    LogGrows(Complete(t), {});
    var u := StartNext(Complete(t), {});
    assert Complete(t).log == [Completion(1, 0, [2], [7])];
    NothingLeft(Complete(t));
  }

  lemma {:induction false} NothingLeft(s: State)
    requires !Active(s)
    ensures StartNext(s, {}) == FinishAll(s)
  {
  }
}
