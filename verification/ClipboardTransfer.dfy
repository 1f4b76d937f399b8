/**
 Clipboard file download ([MS-RDPECLIP] sections 2.2.5.3 and 2.2.5.4) as a state machine: the
 channel's transfer fields, the local disk, and the requests the remote side has not answered yet.
 A peer answers a request at most once, in any order, also after the channel has moved on.
 */
module ClipboardTransfer {
  import opened Basics

  type Path = Name

  /** One entry of `m_incomingFiles`; `open` stands for a non-null `localFile`. */
  datatype Item = Item(localPath: Path, fileSize: nat, received: nat, open: bool)

  /** One offered file as the remote side holds it, and where the channel will store it. */
  datatype Offer = Offer(localPath: Path, content: Bytes)

  /** A range request. On the wire the position travels in two halves, `Low` and `High`;
      `offerNo` is a history number: which descriptor list the request is about. */
  datatype Request = Request(streamId: nat, listIndex: nat, position: nat, count: nat, offerNo: nat)

  datatype Reply = Failed | Data(bytes: Bytes)

  /** History of a file entering the completed list, with its local bytes at that moment. */
  datatype Completion = Completion(offerNo: nat, index: nat, localPath: Path, bytes: Bytes)

  /** History of one `clientFilesReceived`: the paths, the list positions they come from, the disk. */
  datatype Delivery = Delivery(offerNo: nat, paths: seq<Path>, at: seq<nat>, disk: map<Path, Bytes>)

  datatype State = State(
    items: seq<Item>,
    index: nat,
    streamId: nat,
    completed: seq<Path>,
    disk: map<Path, Bytes>,
    unanswered: multiset<Request>,
    orphaned: multiset<Request>,     // requests of closed sessions, which may still be answered
    offers: seq<seq<Offer>>,         // history: every descriptor list received
    completedAt: seq<nat>,           // history: list positions of `completed`
    log: seq<Completion>,
    deliveries: seq<Delivery>
  )

  /** `openOk` holds the list positions whose local file can be opened. A late answer is one to a
      request of a closed session. */
  datatype Step =
    | Descriptors(offer: seq<Offer>, openOk: set<nat>)
    | Answer(request: Request, reply: Reply, written: int, openOk: set<nat>)
    | LateAnswer(request: Request, reply: Reply, written: int, openOk: set<nat>)
    | Close

  function FileAt(disk: map<Path, Bytes>, path: Path): Bytes {
    if path in disk then disk[path] else []
  }

  /** Seek to `at` and write `data`. */
  function WriteAt(content: Bytes, at: nat, data: Bytes): Bytes {
    if at > |content| then content + seq(at - |content|, _ => 0) + data
    else content[..at] + data + (if at + |data| < |content| then content[at + |data|..] else [])
  }

  predicate Active(s: State) {
    s.index < |s.items|
  }

  function OfferNo(s: State): nat {
    if s.offers == [] then 0 else |s.offers| - 1
  }

  /** The request for the next range, at most 65536 bytes. */
  function NextRequest(s: State): Request
    requires Active(s)
  {
    var item := s.items[s.index];
    var left := if item.received <= item.fileSize then item.fileSize - item.received else 0;
    Request(s.streamId, s.index, item.received, Min(65536, left), OfferNo(s))
  }

  /** `requestNextFileChunk` */
  function RequestChunk(s: State): State {
    if !Active(s) || s.items[s.index].received >= s.items[s.index].fileSize then s
    else s.(unanswered := s.unanswered + multiset{NextRequest(s)})
  }

  /** Closes the current file and moves past it. */
  function Advance(s: State): State
    requires Active(s)
  {
    s.(items := s.items[s.index := s.items[s.index].(open := false)], index := s.index + 1)
  }

  /** The current file enters the completed list. */
  function Complete(s: State): State
    requires Active(s)
  {
    var path := s.items[s.index].localPath;
    Advance(s).(completed := s.completed + [path], completedAt := s.completedAt + [s.index],
                log := s.log + [Completion(OfferNo(s), s.index, path, FileAt(s.disk, path))])
  }

  /** Opens the current file for writing, which empties it, unless a handle is still open. */
  function OpenCurrent(s: State): State
    requires Active(s)
  {
    var item := s.items[s.index];
    if item.open then s
    else s.(items := s.items[s.index := item.(open := true)], disk := s.disk[item.localPath := []])
  }

  function BeginCurrent(s: State): State
    requires Active(s)
  {
    RequestChunk(s.(items := s.items[s.index := s.items[s.index].(received := 0)], streamId := s.streamId + 1))
  }

  /** The end of `startNextIncomingFile`: hand the completed files over, if there are any. */
  function FinishAll(s: State): State {
    if s.completed == [] then s
    else
      s.(items := [], completed := [], completedAt := [],
         deliveries := s.deliveries + [Delivery(OfferNo(s), s.completed, s.completedAt, s.disk)])
  }

  /** The paths handed over on the way from one state to another, if any were. */
  function HandedOver(before: State, after: State): Option<seq<Path>> {
    if |after.deliveries| > |before.deliveries| then Some(after.deliveries[|after.deliveries| - 1].paths) else None
  }

  /** `startNextIncomingFile` */
  function StartNext(s: State, openOk: set<nat>): State
    decreases |s.items| - s.index
  {
    if !Active(s) then FinishAll(s)
    else if !s.items[s.index].open && s.index !in openOk then StartNext(s.(index := s.index + 1), openOk)
    else
      var s1 := OpenCurrent(s);
      if s.items[s.index].fileSize == 0 then StartNext(Complete(s1), openOk)
      else BeginCurrent(s1)
  }

  function ItemsFor(offer: seq<Offer>): seq<Item> {
    seq(|offer|, i requires 0 <= i < |offer| => Item(offer[i].localPath, |offer[i].content|, 0, false))
  }

  function ApplyDescriptors(s: State, offer: seq<Offer>, openOk: set<nat>): State {
    var s1 := s.(items := ItemsFor(offer), completed := [], completedAt := [], index := 0,
        offers := s.offers + [offer]);
    if offer == [] then s1 else StartNext(s1, openOk)
  }

  /** The bytes a reply brings go to the current file at the received position. */
  function StoreBytes(s: State, bytes: Bytes, written: int): State
    requires Active(s) && written <= |bytes|
  {
    var item := s.items[s.index];
    if !item.open || written <= 0 then s
    else s.(items := s.items[s.index := item.(received := item.received + written)],
            disk := s.disk[item.localPath := WriteAt(FileAt(s.disk, item.localPath), item.received, bytes[..written])])
  }

  /** `cliprdr_client_file_contents_response` */
  function Handle(s: State, streamId: nat, reply: Reply, written: int, openOk: set<nat>): State
    requires reply.Data? ==> written <= |reply.bytes|
  {
    if !Active(s) then s
    else if reply.Failed? then StartNext(Advance(s), openOk)
    else if streamId != s.streamId then s
    else if reply.bytes == [] then StartNext(Advance(s), openOk)
    else
      var s2 := StoreBytes(s, reply.bytes, written);
      if s2.items[s2.index].received >= s2.items[s2.index].fileSize then StartNext(Complete(s2), openOk)
      else RequestChunk(s2)
  }

  function ApplyAnswer(s: State, request: Request, reply: Reply, written: int, openOk: set<nat>): State
    requires reply.Data? ==> written <= |reply.bytes|
  {
    Handle(s.(unanswered := s.unanswered - multiset{request}), request.streamId, reply, written, openOk)
  }

  function ApplyLate(s: State, request: Request, reply: Reply, written: int, openOk: set<nat>): State
    requires reply.Data? ==> written <= |reply.bytes|
  {
    Handle(s.(orphaned := s.orphaned - multiset{request}), request.streamId, reply, written, openOk)
  }

  /** Closing restarts the stream ids and leaves the requests on the wire to their fate. */
  function ApplyClose(s: State): State {
    s.(items := [], completed := [], completedAt := [], index := 0, streamId := 0,
       unanswered := multiset{}, orphaned := s.orphaned + s.unanswered)
  }

  /** The true bytes at the requested place, and never more of them than asked for. */
  predicate Honest(s: State, request: Request, reply: Reply) {
    reply.Data? ==>
      && request.offerNo < |s.offers| && request.listIndex < |s.offers[request.offerNo]|
      && |reply.bytes| <= request.count
      && request.position + |reply.bytes| <= |s.offers[request.offerNo][request.listIndex].content|
      && var content := s.offers[request.offerNo][request.listIndex].content;
         reply.bytes == content[request.position..request.position + |reply.bytes|]
  }

  predicate Enabled(s: State, step: Step) {
    match step
    case Descriptors(offer, _) => forall k :: 0 <= k < |offer| ==> |offer[k].content| < 0x1_0000_0000_0000_0000
    case Answer(request, reply, written, _) =>
      request in s.unanswered && Honest(s, request, reply) && (reply.Data? ==> written <= |reply.bytes|)
    case LateAnswer(request, reply, written, _) =>
      request in s.orphaned && Honest(s, request, reply) && (reply.Data? ==> written <= |reply.bytes|)
    case Close => true
  }

  function Apply(s: State, step: Step): State
    requires Enabled(s, step)
  {
    match step
    case Descriptors(offer, openOk) => ApplyDescriptors(s, offer, openOk)
    case Answer(request, reply, written, openOk) => ApplyAnswer(s, request, reply, written, openOk)
    case LateAnswer(request, reply, written, openOk) => ApplyLate(s, request, reply, written, openOk)
    case Close => ApplyClose(s)
  }

  const FRESH: State := State([], 0, 0, [], map[], multiset{}, multiset{}, [], [], [], [])

  function Exec(steps: seq<Step>): Option<State>
    decreases |steps|
  {
    if steps == [] then Some(FRESH)
    else
      var before := Exec(steps[..|steps| - 1]);
      var last := steps[|steps| - 1];
      if before.Some? && Enabled(before.value, last) then Some(Apply(before.value, last)) else None
  }

  /** A late answer that does no harm: it is not taken for one of this session's, or it fails or is
      empty and so only skips a file, or it holds exactly the bytes still missing, all written. */
  ghost predicate Harmless(s: State, request: Request, reply: Reply, written: int) {
    || !Active(s) || reply.Failed? || request.streamId != s.streamId || reply.bytes == []
    || (s.index < |Current(s)|
        && var content, at := Current(s)[s.index].content, s.items[s.index].received;
           at + written == |content| && 0 <= written <= |reply.bytes| && reply.bytes[..written] == content[at..])
  }

  function Current(s: State): seq<Offer> {
    if s.offers == [] then [] else s.offers[|s.offers| - 1]
  }

  /** No answer of a closed session does harm in this run. */
  ghost predicate Tidy(steps: seq<Step>)
    decreases |steps|
  {
    steps == [] ||
    (var before, last := steps[..|steps| - 1], steps[|steps| - 1];
     && Tidy(before)
     && (last.LateAnswer? && Exec(before).Some? ==>
         Harmless(Exec(before).value, last.request, last.reply, last.written)))
  }

  ghost predicate Reachable(s: State) {
    exists steps :: Exec(steps) == Some(s) && Tidy(steps)
  }
}
