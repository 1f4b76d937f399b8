/**
 Both ends of a file copy: the offering side's descriptor payload, the list the receiving side makes of
 it, and the contents that travel in ranges.
 */
module ClipboardCopy {
  import opened Basics
  import opened ClipboardDescriptor
  import opened ClipboardTransfer
  import opened ClipboardInvariant
  import opened ClipboardProgress

  /** Where a received file is stored. */
  function PathIn(directory: Name, name: Name): Path {
    directory + [SLASH] + name
  }

  function ItemCount(data: Bytes): nat
    requires |data| >= 4
  {
    RecordCount(DWordAt(data, 0), |data|)
  }

  /** The descriptor list says how long the files are. */
  ghost predicate TrueSizes(data: Bytes, contents: seq<Bytes>)
    requires |data| >= 4
  {
    |contents| == ItemCount(data) && forall i :: 0 <= i < |contents| ==> ParseRecord(data, i).fileSize == |contents[i]|
  }

  /** The list a payload announces, for files of these contents. */
  ghost function OfferFrom(directory: Name, data: Bytes, contents: seq<Bytes>): (offer: seq<Offer>)
    requires |data| >= 4 && |contents| == ItemCount(data)
    ensures |offer| == |contents|
    ensures forall i :: 0 <= i < |offer| ==>
        offer[i] == Offer(PathIn(directory, ParseRecord(data, i).name), contents[i])
  {
    seq(|contents|, i requires 0 <= i < |contents| => Offer(PathIn(directory, ParseRecord(data, i).name), contents[i]))
  }

  /** A whole list of offers, each with its path and its content, copied in order. */
  ghost predicate Copied(d: Delivery, offer: seq<Offer>) {
    && d.at == Iota(|offer|) && |d.paths| == |offer|
    && forall k :: 0 <= k < |offer| ==>
         && d.paths[k] == offer[k].localPath
         && (Unshared(offer, k, |offer|) ==> FileAt(d.disk, d.paths[k]) == offer[k].content)
  }

  /** A fresh list whose files the host serves unchanged arrives whole, in order and, where no later
      file of the list takes the same local path, byte for byte. */
  lemma {:induction false} ListCopied(s: State, offer: seq<Offer>, files: seq<HostFile>, openOk: set<nat>)
          returns (n: nat)
    requires Inv(s) && offer != [] && Unchanged(files, offer)
    requires forall i :: 0 <= i < |offer| ==> i in openOk
    ensures var t := CopyRounds(ApplyDescriptors(s, offer, openOk), files, n, openOk);
            !Active(t) && |t.deliveries| == |s.deliveries| + 1 && Copied(t.deliveries[|s.deliveries|], offer)
  {
    hide CompletedOk, IntactOk, RequestsOk, HandlesOk, ItemsMatch, Serve, StartNext, Full, FullRun;
    var t0 := s.(items := ItemsFor(offer), completed := [], completedAt := [], index := 0,
        offers := s.offers + [offer]);
    var t := ApplyDescriptors(s, offer, openOk);
    DescriptorsKeep(s, offer, openOk);
    StartNextSkipsNothing(t0, openOk);
    n := 0;
    if Active(t) {
      n := WholeListArrives(t, openOk);
      ServedIsFull(t, files, n, openOk);
    }
    var end := CopyRounds(t, files, n, openOk);
    assert Inv(end) && end.offers[|s.offers|] == offer;
    var d := end.deliveries[|s.deliveries|];
    assert DeliveryOk(end.offers, d);
    forall k | 0 <= k < |offer|
      ensures d.paths[k] == offer[k].localPath
      ensures Unshared(offer, k, |offer|) ==> FileAt(d.disk, d.paths[k]) == offer[k].content
    {
      assert d.at[k] == k;
    }
  }

  /** The files the entries were listed from, as they still are. */
  ghost predicate Listed(files: seq<HostFile>, es: seq<Entry>) {
    |files| == |es| && forall i :: 0 <= i < |es| ==>
      if es[i].isDirectory then files[i].Directory? && es[i].fileSize == 0
      else files[i].Regular? && |files[i].content| == es[i].fileSize < 0x8000_0000_0000_0000
  }

  function ContentOf(f: HostFile): Bytes {
    if f.Regular? then f.content else []
  }

  function ContentsOf(files: seq<HostFile>): (contents: seq<Bytes>)
    ensures |contents| == |files| && forall i :: 0 <= i < |files| ==> contents[i] == ContentOf(files[i])
  {
    seq(|files|, i requires 0 <= i < |files| => ContentOf(files[i]))
  }

  /** The payload built for unchanged files states their true sizes. */
  lemma {:induction false} PayloadIsTrue(es: seq<Entry>, files: seq<HostFile>)
    requires 0 < |es| < 0x1_0000_0000 && Listed(files, es)
    ensures |Payload(es)| >= 4 && ItemCount(Payload(es)) == |es| && TrueSizes(Payload(es), ContentsOf(files))
  {
    hide Payload, DWordAt, ParseRecord, LocalName, UntilNul, RecordCount;
    BuiltPayloadParses(es, 0);
    forall i | 0 <= i < |es| ensures ParseRecord(Payload(es), i).fileSize == |ContentsOf(files)[i]| {
      BuiltPayloadParses(es, i);
    }
  }

  /** Two-ended copy: the descriptor payload built for unchanged files, parsed by the downloader, and
      the contents, asked for and served range by range through split positions, put every file under
      the name the payload gives it, its own where that is portable, byte for byte unless a later
      file of the list takes the same local path. */
  lemma {:induction false} TwoEndedCopy(s: State, directory: Name, es: seq<Entry>, files: seq<HostFile>,
          openOk: set<nat>)
    returns (n: nat, offer: seq<Offer>)
    requires Inv(s) && 0 < |es| < 0x1_0000_0000 && Listed(files, es)
    requires forall i :: 0 <= i < |es| ==> i in openOk
    ensures |Payload(es)| >= 4 && ItemCount(Payload(es)) == |files| == |es|
    ensures offer == OfferFrom(directory, Payload(es), ContentsOf(files))
    ensures forall i :: 0 <= i < |es| && Portable(es[i].relativePath) ==>
              offer[i] == Offer(PathIn(directory, es[i].relativePath), ContentOf(files[i]))
    ensures var t := CopyRounds(ApplyDescriptors(s, offer, openOk), files, n, openOk);
            !Active(t) && |t.deliveries| == |s.deliveries| + 1 && Copied(t.deliveries[|s.deliveries|], offer)
  {
    hide Payload, ItemCount, ParseRecord, LocalName, UntilNul, Portable, Inv, Copied, CopyRounds, ApplyDescriptors,
        PathIn, TrueSizes;
    PayloadIsTrue(es, files);
    offer := OfferFrom(directory, Payload(es), ContentsOf(files));
    forall i | 0 <= i < |es| && Portable(es[i].relativePath)
      ensures offer[i] == Offer(PathIn(directory, es[i].relativePath), ContentOf(files[i]))
    {
      DescriptorRoundTrip(es, i);
    }
    n := ListCopied(s, offer, files, openOk);
  }

  /** Asked for sizes, the handler answers what the payload says of the file, in the width asked for. */
  lemma {:induction false} SizesAgree(es: seq<Entry>, files: seq<HostFile>, i: nat, wantRange: bool, low: nat,
      high: nat, count: nat)
    requires i < |es| < 0x1_0000_0000 && Listed(files, es)
    ensures |Payload(es)| == 4 + RECORD * |es|
    ensures var size := ParseRecord(Payload(es), i).fileSize;
            Serve(files, i, true, wantRange, low, high, count) ==
                if count == 4 then ServeSize(size % 0x1_0000_0000, 4) else ServeSize(size, 8)
  {
    hide Payload, ParseRecord, LocalName, UntilNul, RecordCount, DWordAt;
    BuiltPayloadParses(es, i);
  }

  /** A received file lies in the directory, under its name; different names give different paths. */
  lemma {:induction false} PathNames(directory: Name, name: Name, other: Name)
    requires SLASH !in name
    ensures directory <= PathIn(directory, name) && |PathIn(directory, name)| == |directory| + 1 + |name|
    ensures BaseName(PathIn(directory, name)) == name
    ensures PathIn(directory, name) == PathIn(directory, other) <==> name == other
  {
    BaseNameIs(directory, name);
    assert PathIn(directory, name)[|directory| + 1..] == name;
    assert PathIn(directory, other)[|directory| + 1..] == other;
  }

  ghost predicate NamesDiffer(es: seq<Entry>) {
    forall i, j :: 0 <= i < j < |es| ==> BaseName(es[i].relativePath) != BaseName(es[j].relativePath)
  }

  /** Entry `i` is stored at `path`, under its own base name. */
  ghost predicate StoredAs(directory: Name, e: Entry, path: Path) {
    path == PathIn(directory, BaseName(e.relativePath)) && BaseName(path) == BaseName(e.relativePath)
  }

  /** Two-ended copy without a clash: where the base names can all be sent and differ, every file of the
      list is delivered under its own base name, at a path of its own, and holds its own bytes. */
  lemma {:induction false} CopyLosesNothing(s: State, directory: Name, es: seq<Entry>, files: seq<HostFile>,
          openOk: set<nat>)
    returns (n: nat, offer: seq<Offer>)
    requires Inv(s) && 0 < |es| < 0x1_0000_0000 && Listed(files, es)
    requires forall i :: 0 <= i < |es| ==> i in openOk
    requires NamesDiffer(es) && forall i :: 0 <= i < |es| ==> Nameable(es[i].relativePath)
    ensures |Payload(es)| >= 4 && ItemCount(Payload(es)) == |files| == |es|
    ensures offer == OfferFrom(directory, Payload(es), ContentsOf(files))
    ensures var t := CopyRounds(ApplyDescriptors(s, offer, openOk), files, n, openOk);
            && !Active(t) && |t.deliveries| == |s.deliveries| + 1
            && var d := t.deliveries[|s.deliveries|];
               && |d.paths| == |es|
               && (forall i, j :: 0 <= i < j < |es| ==> d.paths[i] != d.paths[j])
               && (forall i :: 0 <= i < |es| ==> StoredAs(directory, es[i], d.paths[i]))
               && (forall i :: 0 <= i < |es| ==> FileAt(d.disk, d.paths[i]) == ContentOf(files[i]))
  {
    hide Payload, ItemCount, ParseRecord, LocalName, UntilNul, Portable, Inv, CopyRounds, ApplyDescriptors,
        PathIn, TrueSizes, BaseName, Nameable, FileAt;
    n, offer := TwoEndedCopy(s, directory, es, files, openOk);
    forall i | 0 <= i < |es|
      ensures offer[i].localPath == PathIn(directory, BaseName(es[i].relativePath))
          && StoredAs(directory, es[i], offer[i].localPath)
    {
      BuiltPayloadParses(es, i);
      BaseNameArrives(es[i], i);
      PathNames(directory, BaseName(es[i].relativePath), []);
    }
    forall i, j | 0 <= i < j < |es| ensures offer[i].localPath != offer[j].localPath {
      PathNames(directory, BaseName(es[i].relativePath), BaseName(es[j].relativePath));
    }
    forall i | 0 <= i < |es| ensures Unshared(offer, i, |offer|) && offer[i].content == ContentOf(files[i]) {}
  }
}
