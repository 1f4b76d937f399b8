/**
 The offering half of the clipboard channel: the host's text and files, the built descriptor payload,
 and the rules by which a change is taken over or ignored.
 */
module ClipboardSender {
  import opened Basics
  import opened ClipboardDescriptor
  import opened ClipboardText
  import opened ClipboardReceiver
  import opened ClipboardTransfer

  datatype Listed = Listed(fullPath: Name, entry: Entry)

  /** A copied path; `tree` is what the recursive walk of a directory lists. */
  datatype HostRoot = HostRoot(path: Name, present: bool, own: Entry, tree: seq<Listed>)

  const MAX_CLIPBOARD_FILES: nat := 5000

  datatype Host = Host(
    outgoingFiles: seq<Name>,
    outgoingFgdData: Bytes,
    lastHostClipboardText: Name,
    lastIncomingFiles: seq<Name>,
    offered: seq<Listed>             // history: what the outgoing files were listed from
  )

  /** A change of the host's clipboard, or a decoded text from the client; `url` is the file URL of
      the first outgoing path. */
  datatype Change =
    | HostText(text: Name, url: Name)
    | HostFiles(roots: seq<HostRoot>)
    | ClientText(decoded: Name)

  function Roots(roots: seq<HostRoot>): (r: seq<Name>)
    ensures |r| <= |roots|
  {
    if roots == [] then []
    else Roots(roots[..|roots| - 1]) + (if roots[|roots| - 1].present then [roots[|roots| - 1].path] else [])
  }

  /** How many of `tree` the walk still takes when `taken` entries are there. */
  function Room(taken: nat, tree: nat): nat {
    Min(tree, if taken >= MAX_CLIPBOARD_FILES then 0 else MAX_CLIPBOARD_FILES - taken)
  }

  function WithRoot(before: seq<Listed>, root: HostRoot): seq<Listed> {
    if !root.present then before
    else
      var own := before + [Listed(root.path, root.own)];
      own + root.tree[..Room(|own|, |root.tree|)]
  }

  function Listing(roots: seq<HostRoot>): seq<Listed> {
    if roots == [] then [] else WithRoot(Listing(roots[..|roots| - 1]), roots[|roots| - 1])
  }

  function FullPaths(listed: seq<Listed>): (r: seq<Name>)
    ensures |r| == |listed|
  {
    seq(|listed|, i requires 0 <= i < |listed| => listed[i].fullPath)
  }

  function Entries(listed: seq<Listed>): (r: seq<Entry>)
    ensures |r| == |listed|
  {
    seq(|listed|, i requires 0 <= i < |listed| => listed[i].entry)
  }

  function Join(paths: seq<Name>, separator: Name): Name {
    if paths == [] then []
    else if |paths| == 1 then paths[0]
    else paths[0] + separator + Join(paths[1..], separator)
  }

  /** The text form of the offered files, which the desktop reports beside the files. */
  predicate IsOwnText(files: seq<Name>, text: Name, url: Name) {
    && files != []
    && (text == Join(files, [LF]) || text == Join(files, [CR, LF])
        || (|files| == 1 && (text == files[0] || text == url)))
  }

  /** `receiving` says whether the list of incoming files is nonempty. */
  predicate TakesText(s: Host, receiving: bool, text: Name, url: Name) {
    !receiving && !IsOwnText(s.outgoingFiles, text, url) && !(s.lastHostClipboardText == text && s.outgoingFiles == [])
  }

  predicate TakesFiles(s: Host, receiving: bool, roots: seq<HostRoot>) {
    && Listing(roots) != [] && !receiving
    && s.lastIncomingFiles != Roots(roots) && s.outgoingFiles != FullPaths(Listing(roots))
  }

  function Take(s: Host, receiving: bool, change: Change): Host {
    match change
    case HostText(text, url) =>
      if !TakesText(s, receiving, text, url) then s
      else s.(lastHostClipboardText := text, outgoingFiles := [], outgoingFgdData := [], lastIncomingFiles := [],
          offered := [])
    case HostFiles(roots) =>
      if !TakesFiles(s, receiving, roots) then s
      else s.(outgoingFiles := FullPaths(Listing(roots)), outgoingFgdData := Payload(Entries(Listing(roots))),
              lastHostClipboardText := Join(Roots(roots), [CR, LF]), lastIncomingFiles := [], offered := Listing(roots))
    case ClientText(decoded) =>
      if Received(decoded) == [] then s
      else s.(lastHostClipboardText := Received(decoded), outgoingFiles := [], outgoingFgdData := [], offered := [])
  }

  const EMPTY: Host := Host([], [], [], [], [])

  datatype FormatReply = FormatFailed | FormatData(data: Bytes)

  datatype Format = FileGroupDescriptorW | UnicodeText | AnsiText | Unsupported

  /** The reply to a request for clipboard data; the text library encodes in UTF-8. */
  function Replied(s: Host, format: Format, toUtf8: Name -> Bytes): FormatReply {
    match format
    case FileGroupDescriptorW => FormatData(s.outgoingFgdData)
    case UnicodeText => FormatData(TextPayload(s.lastHostClipboardText))
    case AnsiText => FormatData(toUtf8(s.lastHostClipboardText) + [0])
    case Unsupported => FormatFailed
  }

  /** What a file system and a Qt list can hold. */
  ghost predicate Sized(change: Change) {
    change.HostFiles? ==>
      && |Listing(change.roots)| < 0x8000_0000
      && forall e :: e in Listing(change.roots) ==> e.entry.fileSize < 0x8000_0000_0000_0000
  }

  ghost predicate OfferOk(s: Host) {
    && s.outgoingFiles == FullPaths(s.offered)
    && s.outgoingFgdData == (if s.offered == [] then [] else Payload(Entries(s.offered)))
    && |s.offered| < 0x8000_0000 && forall e :: e in s.offered ==> e.entry.fileSize < 0x8000_0000_0000_0000
  }

  lemma {:induction false} TakeKeepsOffer(s: Host, receiving: bool, change: Change)
    requires OfferOk(s) && Sized(change)
    ensures OfferOk(Take(s, receiving, change))
  {
    hide Payload, Listing, Received, Join, Roots;
  }

  /** The payload is empty exactly when no file is offered, and otherwise parses into one item per
      outgoing file: item i carries the size, and the name where it is portable, of the entry whose
      path is `m_outgoingFiles[i]`. */
  ghost predicate Described(s: Host) {
    && (s.outgoingFgdData == [] <==> s.outgoingFiles == [])
    && |s.offered| == |s.outgoingFiles|
    && forall i :: 0 <= i < |s.offered| ==> DescribedAt(s, i)
  }

  ghost predicate DescribedAt(s: Host, i: nat)
    requires i < |s.offered| == |s.outgoingFiles|
  {
    && s.offered[i].fullPath == s.outgoingFiles[i]
    && |s.outgoingFgdData| == 4 + RECORD * |s.outgoingFiles|
    && RecordCount(DWordAt(s.outgoingFgdData, 0), |s.outgoingFgdData|) == |s.outgoingFiles|
    && var item := ParseRecord(s.outgoingFgdData, i);
       && item.fileSize == SentSize(s.offered[i].entry)
       && (item.name == s.offered[i].entry.relativePath <==> Portable(s.offered[i].entry.relativePath))
  }

  lemma {:induction false} OfferDescribed(s: Host)
    requires OfferOk(s)
    ensures Described(s)
  {
    hide Payload, DWordAt, ParseRecord, LocalName, Portable;
    if s.offered != [] { BuiltPayloadParses(Entries(s.offered), 0); }
    forall i | 0 <= i < |s.offered| ensures DescribedAt(s, i) {
      BuiltPayloadParses(Entries(s.offered), i);
      NameKeptIff(s.offered[i].entry, i);
    }
  }

  // The text echo of an offer.

  function LineFeeds(t: Name): nat {
    if t == [] then 0 else (if t[0] == LF then 1 else 0) + LineFeeds(t[1..])
  }

  lemma {:induction false} LineFeedsAppend(a: Name, b: Name)
    ensures LineFeeds(a + b) == LineFeeds(a) + LineFeeds(b)
  {
    if a == [] {
      assert a + b == b;
    } else {
      assert (a + b)[1..] == a[1..] + b;
      LineFeedsAppend(a[1..], b);
    }
  }

  lemma {:induction false} NoLineFeeds(a: Name)
    requires LF !in a
    ensures LineFeeds(a) == 0
  {
    if a != [] { NoLineFeeds(a[1..]); }
  }

  lemma {:induction false} JoinLineFeeds(paths: seq<Name>, separator: Name)
    requires paths != [] && LineFeeds(separator) == 1
    requires forall k :: 0 <= k < |paths| ==> LF !in paths[k]
    ensures LineFeeds(Join(paths, separator)) == |paths| - 1
  {
    hide LineFeeds;
    NoLineFeeds(paths[0]);
    if |paths| > 1 {
      JoinLineFeeds(paths[1..], separator);
      LineFeedsAppend(paths[0] + separator, Join(paths[1..], separator));
      LineFeedsAppend(paths[0], separator);
    }
  }

  /** Every existing root is listed, and beyond the cap nothing but roots. */
  lemma {:induction false} RootsListed(roots: seq<HostRoot>)
    ensures |Roots(roots)| <= |Listing(roots)| <= 5000 + |Roots(roots)|
    ensures |Roots(roots)| == |Listing(roots)| ==> FullPaths(Listing(roots)) == Roots(roots)
    ensures forall p :: p in Roots(roots) ==> p in FullPaths(Listing(roots))
  {
    if roots != [] {
      var before, root := Listing(roots[..|roots| - 1]), roots[|roots| - 1];
      RootsListed(roots[..|roots| - 1]);
      var all := Listing(roots);
      assert all[..|before|] == before;
      assert FullPaths(all)[..|before|] == FullPaths(before);
      if root.present {
        assert all[|before|].fullPath == root.path;
        assert FullPaths(all)[|before|] == root.path;
        if |Roots(roots)| == |all| { assert FullPaths(all) == FullPaths(before) + [root.path]; }
      }
    }
  }

  /** The paths that exist, in order: paths that do not exist make no difference. */
  lemma {:induction false} RootsAre(roots: seq<HostRoot>)
    ensures (forall k :: 0 <= k < |roots| ==> roots[k].present) ==>
              |Roots(roots)| == |roots| && forall k :: 0 <= k < |roots| ==> Roots(roots)[k] == roots[k].path
  {
    if roots != [] { RootsAre(roots[..|roots| - 1]); }
  }

  lemma {:induction false} MissingRoot(before: seq<HostRoot>, root: HostRoot, after: seq<HostRoot>)
    requires !root.present
    ensures Roots(before + [root] + after) == Roots(before + after)
    ensures Listing(before + [root] + after) == Listing(before + after)
    decreases |after|
  {
    var all, rest := before + [root] + after, before + after;
    if after == [] {
      assert all[..|all| - 1] == before && rest == before;
    } else {
      var n := |after| - 1;
      assert all[..|all| - 1] == before + [root] + after[..n] && rest[..|rest| - 1] == before + after[..n];
      MissingRoot(before, root, after[..n]);
    }
  }

  /** Every existing root with all that is in it. */
  function Everything(roots: seq<HostRoot>): seq<Listed> {
    if roots == [] then []
    else
      var root := roots[|roots| - 1];
      Everything(roots[..|roots| - 1]) + (if root.present then [Listed(root.path, root.own)] + root.tree else [])
  }

  /** Up to the cap everything is listed, in order; beyond it at least as many entries as the cap allows. */
  lemma {:induction false} ListingComplete(roots: seq<HostRoot>)
    ensures |Everything(roots)| <= 5000 ==> Listing(roots) == Everything(roots)
    ensures |Listing(roots)| <= |Everything(roots)|
    ensures |Listing(roots)| < |Everything(roots)| ==> |Listing(roots)| >= 5000
    ensures forall e :: e in Listing(roots) ==> e in Everything(roots)
  {
    if roots != [] {
      ListingComplete(roots[..|roots| - 1]);
      var root := roots[|roots| - 1];
      if root.present {
        var own := Listing(roots[..|roots| - 1]) + [Listed(root.path, root.own)];
        assert Room(|own|, |root.tree|) == |root.tree| ==> root.tree[..Room(|own|, |root.tree|)] == root.tree;
      }
    }
  }

  /** The paths of the existing roots, in order, with the separator between them. */
  lemma {:induction false} JoinMeans(paths: seq<Name>, separator: Name)
    ensures paths != [] ==> paths[0] <= Join(paths, separator)
    ensures |paths| > 1 ==> Join(paths, separator)[|paths[0]|..] == separator + Join(paths[1..], separator)
    ensures |paths| == 1 ==> Join(paths, separator) == paths[0]
  {
  }

  lemma {:induction false} OneLineFeed(separator: Name)
    requires separator == [LF] || separator == [CR, LF]
    ensures LineFeeds(separator) == 1
  {
    assert [CR, LF][1..] == [LF] && [LF][1..] == [];
    assert LineFeeds([]) == 0 && LineFeeds([LF]) == 1 && LineFeeds([CR, LF]) == 1;
  }

  /** A text that spells the paths of a fresh offer leaves it alone exactly when no directory content
      was listed; otherwise it is a text like any other and replaces the offer. */
  lemma {:induction false} OwnTextKeepsOfferIff(s: Host, roots: seq<HostRoot>, separator: Name, url: Name)
    requires TakesFiles(s, false, roots) && (separator == [LF] || separator == [CR, LF])
    requires forall k :: 0 <= k < |Listing(roots)| ==> LF !in Listing(roots)[k].fullPath
    ensures var t := Take(s, false, HostFiles(roots));
            var u := Take(t, false, HostText(Join(Roots(roots), separator), url));
            if |Listing(roots)| == |Roots(roots)| then u == t else u.outgoingFiles == [] && u.outgoingFgdData == []
  {
    hide Listing, Roots, LineFeeds, Payload, Join;
    RootsListed(roots);
    var files, text := FullPaths(Listing(roots)), Join(Roots(roots), separator);
    if |Listing(roots)| != |Roots(roots)| {
      if Roots(roots) == [] {
        EmptyRoots(roots);
      } else {
        forall k | 0 <= k < |Roots(roots)| ensures LF !in Roots(roots)[k] {
          assert Roots(roots)[k] in files;
        }
        OneLineFeed(separator);
        JoinLineFeeds(Roots(roots), separator);
        OneLineFeed([LF]);
        OneLineFeed([CR, LF]);
        JoinLineFeeds(files, [LF]);
        JoinLineFeeds(files, [CR, LF]);
      }
    }
  }

  lemma {:induction false} EmptyRoots(roots: seq<HostRoot>)
    ensures Roots(roots) == [] <==> Listing(roots) == []
  {
    if roots != [] { EmptyRoots(roots[..|roots| - 1]); }
  }

  // The program's methods.

  /** The listing loops over roots and directory walks. */
  method ListFiles(roots: seq<HostRoot>) returns (entries: seq<Listed>, validRootFiles: seq<Name>)
    ensures entries == Listing(roots) && validRootFiles == Roots(roots)
  {
    entries, validRootFiles := [], [];
    for i := 0 to |roots|
      invariant entries == Listing(roots[..i]) && validRootFiles == Roots(roots[..i])
    {
      assert roots[..i + 1][..i] == roots[..i];
      var root := roots[i];
      if root.present {
        validRootFiles := validRootFiles + [root.path];
        entries := entries + [Listed(root.path, root.own)];
        ghost var own := entries;
        var k := 0;
        while k < |root.tree|
          invariant k <= Room(|own|, |root.tree|) && entries == own + root.tree[..k]
          decreases |root.tree| - k
        {
          if |entries| >= MAX_CLIPBOARD_FILES { break; }
          entries := entries + [root.tree[k]];
          k := k + 1;
        }
      }
    }
    assert roots[..|roots|] == roots;
  }

  /** The offering half of the channel, beside the receiving half it shares two fields with. */
  class Sender {
    const receiver: Receiver
    var outgoingFiles: seq<Name>
    var outgoingFgdData: Bytes
    var lastHostClipboardText: Name
    ghost var offered: seq<Listed>

    ghost function Model(): Host
      reads this, receiver
    {
      Host(outgoingFiles, outgoingFgdData, lastHostClipboardText, receiver.lastIncomingFiles, offered)
    }

    /** A download keeps its list until it is handed over. */
    ghost predicate IsReceiving()
      reads receiver
    {
      receiver.incomingFiles != []
    }

    constructor (receiver: Receiver)
      requires receiver.lastIncomingFiles == []
      ensures Model() == EMPTY && this.receiver == receiver
    {
      this.receiver := receiver;
      outgoingFiles, outgoingFgdData, lastHostClipboardText := [], [], [];
      offered := [];
    }

    /** Returns whether the new text is taken over, and so announced once the client is ready. */
    method OnHostClipboardChanged(text: Name, url: Name) returns (taken: bool)
      modifies this, receiver`lastIncomingFiles
      ensures Model() == Take(old(Model()), old(IsReceiving()), HostText(text, url))
      ensures taken == TakesText(old(Model()), old(IsReceiving()), text, url)
    {
      if receiver.incomingFiles != [] { return false; }
      if outgoingFiles != [] {
        if text == Join(outgoingFiles, [LF]) || text == Join(outgoingFiles, [CR, LF]) { return false; }
        if |outgoingFiles| == 1 {
          if text == outgoingFiles[0] || text == url { return false; }
        }
      }
      if lastHostClipboardText == text && outgoingFiles == [] { return false; }
      lastHostClipboardText := text;
      outgoingFiles, outgoingFgdData := [], [];
      receiver.lastIncomingFiles := [];
      offered := [];
      return true;
    }

    method OnHostClipboardFilesChanged(roots: seq<HostRoot>) returns (taken: bool)
      modifies this, receiver`lastIncomingFiles
      ensures Model() == Take(old(Model()), old(IsReceiving()), HostFiles(roots))
      ensures taken == TakesFiles(old(Model()), old(IsReceiving()), roots)
    {
      hide Listing, Roots, Payload, Join;
      var listed, validRootFiles := ListFiles(roots);
      if listed == [] { return false; }
      if receiver.incomingFiles != [] { return false; }
      if receiver.lastIncomingFiles == validRootFiles { return false; }
      var allFullPaths: seq<Name> := [];
      var entries: seq<Entry> := [];
      for i := 0 to |listed|
        invariant allFullPaths == FullPaths(listed)[..i] && entries == Entries(listed)[..i]
      {
        allFullPaths := allFullPaths + [listed[i].fullPath];
        entries := entries + [listed[i].entry];
      }
      assert allFullPaths == FullPaths(listed) && entries == Entries(listed);
      if outgoingFiles == allFullPaths { return false; }
      outgoingFiles := allFullPaths;
      receiver.lastIncomingFiles := [];
      var buffer := BuildPayload(entries);
      outgoingFgdData := buffer[..];
      lastHostClipboardText := Join(validRootFiles, [CR, LF]);
      offered := listed;
      return true;
    }

    /** A FileGroupDescriptorW request is always answered, with nothing when no file is offered. */
    method ClientFormatDataRequest(format: Format, toUtf8: Name -> Bytes) returns (reply: FormatReply)
      ensures reply == Replied(Model(), format, toUtf8)
      ensures format.Unsupported? <==> reply.FormatFailed?
    {
      match format
      case FileGroupDescriptorW => return FormatData(outgoingFgdData);
      case UnicodeText =>
        var data := SendText(lastHostClipboardText);
        return FormatData(data);
      case AnsiText => return FormatData(toUtf8(lastHostClipboardText) + [0]);
      case Unsupported => return FormatFailed;
    }

    /** Text data of the last requested format; the text library decodes UTF-8. */
    method ClientTextResponse(unicode: bool, data: Bytes, fromUtf8: Bytes -> Name) returns (received: Option<Name>)
      modifies this
      ensures var decoded := if unicode then FromUtf16(UnitsFrom(data, 0)) else fromUtf8(data);
              && Model() == Take(old(Model()), old(IsReceiving()), ClientText(decoded))
              && received == if Received(decoded) == [] then None else Some(Received(decoded))
    {
      hide Received;
      var text := ReceiveText(if unicode then FromUtf16(UnitsFrom(data, 0)) else fromUtf8(data));
      if text == [] { return None; }
      lastHostClipboardText := text;
      outgoingFiles, outgoingFgdData := [], [];
      offered := [];
      return Some(text);
    }

    method Close()
      modifies this, receiver
      ensures Model() == EMPTY && receiver.Model() == ApplyClose(old(receiver.Model()))
    {
      receiver.Close();
      outgoingFiles, outgoingFgdData, lastHostClipboardText := [], [], [];
      offered := [];
    }
  }
}
