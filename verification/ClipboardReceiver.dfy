/** The receiving half of the clipboard channel, each method against the transition it performs. */
module ClipboardReceiver {
  import opened Basics
  import opened ClipboardTransfer
  import opened ClipboardProgress
  import opened ClipboardDescriptor
  import opened ClipboardCopy

  /** A contents request as it goes on the wire. */
  datatype WireRequest = WireRequest(streamId: nat, listIndex: nat, positionLow: nat, positionHigh: nat,
      cbRequested: nat)

  lemma {:induction false} StoredInPlace(s: State, bytes: Bytes, written: int)
    requires Active(s) && written <= |bytes|
    ensures var t := StoreBytes(s, bytes, written); t.index == s.index && |t.items| == |s.items|
  {
  }

  class Receiver {
    var incomingFiles: seq<Item>
    var currentIncomingFileIndex: nat
    var fileStreamId: nat
    var completedIncomingFilePaths: seq<Path>
    var lastIncomingFiles: seq<Path>
    var disk: map<Path, Bytes>                   // the file system, as far as the channel writes it
    ghost var unanswered: multiset<Request>
    ghost var orphaned: multiset<Request>
    ghost var offers: seq<seq<Offer>>
    ghost var completedAt: seq<nat>
    ghost var log: seq<Completion>
    ghost var deliveries: seq<Delivery>

    ghost function Model(): State
      reads this
    {
      State(incomingFiles, currentIncomingFileIndex, fileStreamId, completedIncomingFilePaths, disk,
            unanswered, orphaned, offers, completedAt, log, deliveries)
    }

    /** The files handed over are remembered, the ones from before otherwise. */
    predicate RemembersFrom(before: seq<Path>, received: Option<seq<Path>>)
      reads `lastIncomingFiles
    {
      lastIncomingFiles == if received.Some? then received.value else before
    }

    constructor ()
      ensures Model() == FRESH
    {
      incomingFiles, currentIncomingFileIndex, fileStreamId := [], 0, 0;
      completedIncomingFilePaths, lastIncomingFiles, disk := [], [], map[];
      unanswered, orphaned, offers, completedAt, log, deliveries := multiset{}, multiset{}, [], [], [], [];
    }

    method CloseHandle()
      requires currentIncomingFileIndex < |incomingFiles|
      modifies `incomingFiles
      ensures incomingFiles ==
          old(incomingFiles)[currentIncomingFileIndex := old(incomingFiles)[currentIncomingFileIndex].(open := false)]
    {
      var item := incomingFiles[currentIncomingFileIndex];
      if item.open { incomingFiles := incomingFiles[currentIncomingFileIndex := item.(open := false)]; }
    }

    /** Enters the current file in the completed list, its handle closed, and moves on. */
    method CompleteFile()
      requires currentIncomingFileIndex < |incomingFiles|
      modifies this
      ensures Model() == Complete(old(Model()))
      ensures lastIncomingFiles == old(lastIncomingFiles) && deliveries == old(deliveries)
    {
      var path := incomingFiles[currentIncomingFileIndex].localPath;
      CloseHandle();
      log := log + [Completion(if offers == [] then 0
          else |offers| - 1, currentIncomingFileIndex, path, FileAt(disk, path))];
      completedAt := completedAt + [currentIncomingFileIndex];
      completedIncomingFilePaths := completedIncomingFilePaths + [path];
      currentIncomingFileIndex := currentIncomingFileIndex + 1;
    }

    method RequestNextFileChunk() returns (sent: Option<WireRequest>)
      modifies `unanswered
      ensures Model() == RequestChunk(old(Model()))
      ensures sent.Some? <==>
                && Active(Model())
                && var item := incomingFiles[currentIncomingFileIndex]; item.received < item.fileSize
      ensures sent.Some? ==>
                var r, w := NextRequest(Model()), sent.value;
                && w.streamId == r.streamId && w.listIndex == r.listIndex && w.cbRequested == r.count
                && w.positionLow == Low(r.position) && w.positionHigh == High(r.position)
    {
      if currentIncomingFileIndex >= |incomingFiles| { return None; }
      var item := incomingFiles[currentIncomingFileIndex];
      if item.received >= item.fileSize { return None; }
      var offset := item.received;
      var remaining := item.fileSize - item.received;
      var chunkSize := if 65536 <= remaining then 65536 else remaining;
      unanswered := unanswered + multiset{NextRequest(Model())};
      return Some(WireRequest(fileStreamId, currentIncomingFileIndex, Low(offset), High(offset), chunkSize));
    }

    /** Creates the current file's local file unless a handle is open; the new file is empty. */
    method OpenFile()
      requires currentIncomingFileIndex < |incomingFiles|
      modifies `incomingFiles, `disk
      ensures Model() == OpenCurrent(old(Model()))
    {
      var item := incomingFiles[currentIncomingFileIndex];
      if !item.open {
        incomingFiles := incomingFiles[currentIncomingFileIndex := item.(open := true)];
        disk := disk[item.localPath := []];
      }
    }

    method BeginFile()
      requires currentIncomingFileIndex < |incomingFiles|
      modifies `incomingFiles, `fileStreamId, `unanswered
      ensures Model() == BeginCurrent(old(Model()))
    {
      var item := incomingFiles[currentIncomingFileIndex];
      incomingFiles := incomingFiles[currentIncomingFileIndex := item.(received := 0)];
      fileStreamId := fileStreamId + 1;
      var _ := RequestNextFileChunk();
    }

    /** Hands the completed files over, if there are any, and forgets the list. */
    method HandOver() returns (received: Option<seq<Path>>)
      modifies `incomingFiles, `completedIncomingFilePaths, `lastIncomingFiles, `completedAt, `deliveries
      ensures Model() == FinishAll(old(Model()))
      ensures received == if old(completedIncomingFilePaths) == [] then None else Some(old(completedIncomingFilePaths))
      ensures received == HandedOver(old(Model()), Model()) && RemembersFrom(old(lastIncomingFiles), received)
    {
      if completedIncomingFilePaths == [] { return None; }
      received := Some(completedIncomingFilePaths);
      lastIncomingFiles := completedIncomingFilePaths;
      deliveries := deliveries + [Delivery(if offers == [] then 0
          else |offers| - 1, completedIncomingFilePaths, completedAt, disk)];
      incomingFiles := [];
      completedIncomingFilePaths, completedAt := [], [];
    }

    /** `openOk` holds the list positions whose local file can be opened. The files handed over, if
        any, are returned and remembered. */
    method StartNextIncomingFile(openOk: set<nat>) returns (received: Option<seq<Path>>)
      modifies this
      ensures Model() == StartNext(old(Model()), openOk)
      ensures received == HandedOver(old(Model()), Model()) && RemembersFrom(old(lastIncomingFiles), received)
    {
      while currentIncomingFileIndex < |incomingFiles|
        invariant StartNext(Model(), openOk) == StartNext(old(Model()), openOk)
        invariant lastIncomingFiles == old(lastIncomingFiles) && deliveries == old(deliveries)
        decreases |incomingFiles| - currentIncomingFileIndex
      {
        hide OpenCurrent, Complete, BeginCurrent;
        var item := incomingFiles[currentIncomingFileIndex];
        if !item.open && currentIncomingFileIndex !in openOk {
          currentIncomingFileIndex := currentIncomingFileIndex + 1;
        } else {
          OpenFile();
          if item.fileSize != 0 {
            BeginFile();
            return None;
          }
          CompleteFile();
        }
      }
      received := HandOver();
    }

    /** Closes what is open and empties the list. */
    method ForgetList()
      modifies `incomingFiles, `completedIncomingFilePaths, `completedAt, `currentIncomingFileIndex
      ensures Model() == old(Model()).(items := [], completed := [], completedAt := [], index := 0)
    {
      incomingFiles, currentIncomingFileIndex := [], 0;
      completedIncomingFilePaths, completedAt := [], [];
    }

    /** A descriptor list: handles of the previous list are closed, its files forgotten, and the files
        the payload describes queued; `contents` is what the remote side holds. */
    method DescriptorListReceived(directory: Name, data: Bytes, ghost contents: seq<Bytes>, openOk: set<nat>)
            returns (received: Option<seq<Path>>)
      requires |data| >= 4 ==> TrueSizes(data, contents)
      modifies this
      ensures Model() == if |data| < 4 then old(Model())
          else ApplyDescriptors(old(Model()), OfferFrom(directory, data, contents), openOk)
      ensures received == HandedOver(old(Model()), Model()) && RemembersFrom(old(lastIncomingFiles), received)
    {
      hide ParseRecord, DWordAt, StartNext, PathIn;
      var parsed := Parse(data);
      received := None;
      if parsed.None? { return; }
      var list := parsed.value;
      ghost var offer := OfferFrom(directory, data, contents);
      ForgetList();
      offers := offers + [offer];
      for i := 0 to |list|
        invariant |incomingFiles| == i && forall k :: 0 <= k < i ==> incomingFiles[k] == ItemsFor(offer)[k]
        invariant Model() == old(Model()).(items := incomingFiles, completed := [], completedAt := [], index := 0,
            offers := old(offers) + [offer])
        invariant lastIncomingFiles == old(lastIncomingFiles)
      {
        incomingFiles := incomingFiles + [Item(PathIn(directory, list[i].name), list[i].fileSize, 0, false)];
      }
      assert incomingFiles == ItemsFor(offer);
      if incomingFiles != [] { received := StartNextIncomingFile(openOk); }
    }

    method GiveUpFile(openOk: set<nat>) returns (received: Option<seq<Path>>)
      requires currentIncomingFileIndex < |incomingFiles|
      modifies this
      ensures Model() == StartNext(Advance(old(Model())), openOk)
      ensures received == HandedOver(old(Model()), Model()) && RemembersFrom(old(lastIncomingFiles), received)
    {
      CloseHandle();
      currentIncomingFileIndex := currentIncomingFileIndex + 1;
      received := StartNextIncomingFile(openOk);
    }

    method StoreData(bytes: Bytes, written: int)
      requires currentIncomingFileIndex < |incomingFiles| && written <= |bytes|
      modifies `incomingFiles, `disk
      ensures Model() == StoreBytes(old(Model()), bytes, written)
    {
      var item := incomingFiles[currentIncomingFileIndex];
      if item.open && written > 0 {
        disk := disk[item.localPath := WriteAt(FileAt(disk, item.localPath), item.received, bytes[..written])];
        incomingFiles := incomingFiles[currentIncomingFileIndex := item.(received := item.received + written)];
      }
    }

    /** `streamId` and `reply` arrive. The failure flag is looked at before the stream id. */
    method HandleResponse(streamId: nat, reply: Reply, written: int, openOk: set<nat>)
            returns (received: Option<seq<Path>>)
      requires reply.Data? ==> written <= |reply.bytes|
      modifies this
      ensures Model() == Handle(old(Model()), streamId, reply, written, openOk)
      ensures received == HandedOver(old(Model()), Model()) && RemembersFrom(old(lastIncomingFiles), received)
    {
      hide StartNext, StoreBytes, Complete, RequestChunk, Advance;
      received := None;
      if currentIncomingFileIndex >= |incomingFiles| { return; }
      if reply.Failed? {
        received := GiveUpFile(openOk);
        return;
      }
      if streamId != fileStreamId { return; }
      if reply.bytes == [] {
        received := GiveUpFile(openOk);
        return;
      }
      StoredInPlace(Model(), reply.bytes, written);
      StoreData(reply.bytes, written);
      var item := incomingFiles[currentIncomingFileIndex];
      if item.received >= item.fileSize {
        CompleteFile();
        received := StartNextIncomingFile(openOk);
      } else {
        var _ := RequestNextFileChunk();
      }
    }

    /** `answered` is the request a response belongs to, which may be one of a closed session, and
        `written` what the local write returns. */
    method FileContentsResponse(ghost answered: Request, streamId: nat, reply: Reply, written: int, openOk: set<nat>)
            returns (received: Option<seq<Path>>)
      requires streamId == answered.streamId && (reply.Data? ==> written <= |reply.bytes|)
      requires answered in unanswered || answered in orphaned
      modifies this
      ensures Model() == if answered in old(unanswered) then ApplyAnswer(old(Model()), answered, reply, written, openOk)
                         else ApplyLate(old(Model()), answered, reply, written, openOk)
      ensures received == HandedOver(old(Model()), Model()) && RemembersFrom(old(lastIncomingFiles), received)
    {
      hide Handle;
      if answered in unanswered {
        unanswered := unanswered - multiset{answered};
      } else {
        orphaned := orphaned - multiset{answered};
      }
      received := HandleResponse(streamId, reply, written, openOk);
    }

    /** The requests on the wire are not called back. */
    method Close()
      modifies this
      ensures Model() == ApplyClose(old(Model())) && lastIncomingFiles == []
    {
      ForgetList();
      lastIncomingFiles, fileStreamId := [], 0;
      unanswered, orphaned := multiset{}, orphaned + unanswered;
    }
  }
}
