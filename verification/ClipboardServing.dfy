/**
 What the client is served, over runs of the whole channel: the text or the files taken over last, until
 something else takes their place; and what is not offered to it again.
 */
module ClipboardServing {
  import opened Basics
  import opened ClipboardDescriptor
  import opened ClipboardText
  import opened ClipboardSender
  import opened ClipboardChannel
  import T = ClipboardTransfer

  /** The text an event puts in the place of the one before, if it does. */
  function Sets(c: State, event: Event): Option<Name> {
    match event
    case Changed(HostText(text, url)) => if TakesText(c.host, IsReceiving(c), text, url) then Some(text) else None
    case Changed(HostFiles(roots)) =>
      if TakesFiles(c.host, IsReceiving(c), roots) then Some(Join(Roots(roots), [CR, LF])) else None
    case Changed(ClientText(decoded)) => if Received(decoded) != [] then Some(Received(decoded)) else None
    case Transfer(step) => if step.Close? then Some([]) else None
  }

  /** The files that come with it. */
  function Listed(event: Event): seq<Listed> {
    if event.Changed? && event.change.HostFiles? then Listing(event.change.roots) else []
  }

  /** A host's text is taken over exactly when no list is pending and it is new: other than the text in
      place, or, with files on offer, none of the forms that their paths take as text. */
  lemma {:induction false} HostTextTakenIff(c: State, text: Name, url: Name)
    ensures Apply(c, Changed(HostText(text, url))) != c <==>
              && c.transfer.items == []
              && var files := c.host.outgoingFiles;
                 && (files == [] ==> text != c.host.lastHostClipboardText)
                 && (files != [] ==> text != Join(files, [LF]) && text != Join(files, [CR, LF]))
                 && (|files| == 1 ==> text != files[0] && text != url)
    ensures Apply(c, Changed(HostText(text, url))) != c <==> Sets(c, Changed(HostText(text, url))) == Some(text)
  {
    hide Join;
  }

  /** Files are taken over exactly when no list is pending, some are listed, and they are neither the ones
      last received nor the ones on offer. */
  lemma {:induction false} HostFilesTakenIff(c: State, roots: seq<HostRoot>)
    ensures Apply(c, Changed(HostFiles(roots))) != c <==>
              && c.transfer.items == [] && Listing(roots) != []
              && Roots(roots) != c.host.lastIncomingFiles && FullPaths(Listing(roots)) != c.host.outgoingFiles
    ensures Apply(c, Changed(HostFiles(roots))) != c <==> Sets(c, Changed(HostFiles(roots))).Some?
  {
    hide Join, Payload, Listing, Roots;
  }

  /** What the client would be given in state `c` is the text and the files of an event. */
  ghost predicate InPlace(c: State, text: Name, listed: seq<Listed>) {
    && c.host.lastHostClipboardText == text
    && c.host.outgoingFiles == FullPaths(listed) && c.host.offered == listed
  }

  lemma {:induction false} SetsWhat(c: State, event: Event)
    requires Enabled(c, event)
    ensures Sets(c, event).Some? ==> InPlace(Apply(c, event), Sets(c, event).value, Listed(event))
    ensures Sets(c, event).None? ==> forall text, listed :: InPlace(c, text, listed) ==>
              InPlace(Apply(c, event), text, listed)
  {
    hide T.Apply, T.Enabled, Payload, Listing, Join, Roots, Received;
  }

  /** Event `k` of the run put its text and files in place, and nothing after it did. */
  ghost predicate SetLast(events: seq<Event>, k: nat) {
    && k < |events| && Exec(START, events[..k]).Some?
    && Sets(Exec(START, events[..k]).value, events[k]).Some?
    && forall j :: k < j < |events| ==> Untouched(events, j)
  }

  ghost predicate Untouched(events: seq<Event>, j: nat)
    requires j < |events|
  {
    Exec(START, events[..j]).Some? ==> Sets(Exec(START, events[..j]).value, events[j]).None?
  }

  function TextAt(events: seq<Event>, k: nat): Name
    requires k < |events| && Exec(START, events[..k]).Some?
    requires Sets(Exec(START, events[..k]).value, events[k]).Some?
  {
    Sets(Exec(START, events[..k]).value, events[k]).value
  }

  lemma {:induction false} Standing(events: seq<Event>, c: State, k: nat)
    requires Exec(START, events) == Some(c) && SetLast(events, k)
    ensures InPlace(c, TextAt(events, k), Listed(events[k]))
    decreases |events|
  {
    hide Apply, Enabled, Sets, InPlace;
    var n := |events| - 1;
    var before := Exec(START, events[..n]).value;
    if k == n {
      SetsWhat(before, events[n]);
    } else {
      assert events[..n][..k] == events[..k] && events[..n][k] == events[k];
      forall j | k < j < n ensures Untouched(events[..n], j) {
        assert events[..n][..j] == events[..j];
        assert Untouched(events, j);
      }
      Standing(events[..n], before, k);
      assert Untouched(events, n);
      SetsWhat(before, events[n]);
    }
  }

  /** The text served: from the moment a text of the host is taken over, files are, a text is received or
      the channel is closed, until one of these happens again, a request for CF_UNICODETEXT is answered,
      as its receiver reads it, with that text, the paths of the files one to a line, or nothing, CR LF
      turned into LF; exactly where that text is empty, or neither ends in NUL nor starts with a mark. A
      request for CF_TEXT is answered with its encoding and a NUL. */
  lemma {:induction false} TextServed(events: seq<Event>, c: State, k: nat, toUtf8: Name -> Bytes)
    requires Exec(START, events) == Some(c) && SetLast(events, k)
    ensures Replied(c.host, AnsiText, toUtf8) == FormatData(toUtf8(TextAt(events, k)) + [0])
    ensures Replied(c.host, UnicodeText, toUtf8).FormatData?
    ensures var text := TextAt(events, k);
            ReceivedText(Replied(c.host, UnicodeText, toUtf8).data) == Collapse(text) <==>
              text == [] || (text[|text| - 1] != 0 && text[0] != 0xFEFF && text[0] != 0xFFFE)
    ensures match events[k]
            case Changed(HostText(text, _)) => TextAt(events, k) == text
            case Changed(HostFiles(roots)) => TextAt(events, k) == Join(Roots(roots), [CR, LF])
            case Changed(ClientText(decoded)) => TextAt(events, k) == Received(decoded) != []
            case Transfer(_) => TextAt(events, k) == []
  {
    hide Exec, Received, TextPayload, Collapse, Roots, Join, Listing;
    Standing(events, c, k);
    TextRoundTripIff(TextAt(events, k));
  }

  /** The files served: as long, the outgoing files are the listed ones, and the descriptor payload states
      the size, and the name where it is portable, of each; after anything but files there are none. */
  lemma {:induction false} FilesServed(events: seq<Event>, c: State, k: nat, toUtf8: Name -> Bytes)
    requires Exec(START, events) == Some(c) && SetLast(events, k)
    requires forall j :: 0 <= j < |events| ==> SizedEvent(events[j])
    ensures var listed, reply := Listed(events[k]), Replied(c.host, FileGroupDescriptorW, toUtf8);
            && reply.FormatData?
            && |c.host.outgoingFiles| == |listed| && (reply.data == [] <==> listed == [])
            && forall i :: 0 <= i < |listed| ==>
                 && c.host.outgoingFiles[i] == listed[i].fullPath
                 && 4 + RECORD * (i + 1) <= |reply.data|
                 && var item := ParseRecord(reply.data, i);
                    && item.fileSize == (if listed[i].entry.isDirectory then 0 else listed[i].entry.fileSize)
                    && (item.name == listed[i].entry.relativePath <==> Portable(listed[i].entry.relativePath))
  {
    hide Exec, Payload, Listing, ParseRecord, Portable, SizedEvent, DWordAt, RecordCount;
    Standing(events, c, k);
    DescriptorsMatchFiles(events, c);
    var listed := Listed(events[k]);
    forall i | 0 <= i < |listed|
      ensures c.host.outgoingFiles[i] == listed[i].fullPath && DescribedAt(c.host, i)
    {
      assert DescribedAt(c.host, i);
    }
  }

  /** A text that stands is not taken over again, whether the host copied it or the client sent it. */
  lemma {:induction false} TextNotTakenAgain(events: seq<Event>, c: State, k: nat, url: Name)
    requires Exec(START, events) == Some(c) && SetLast(events, k) && Listed(events[k]) == []
    ensures Apply(c, Changed(HostText(TextAt(events, k), url))) == c
  {
    hide Exec, Sets, Listing, Listed;
    Standing(events, c, k);
    HostTextTakenIff(c, TextAt(events, k), url);
  }

  // Files that were received.

  /** What ends the memory of received files: files received, a text or files taken over, a close. */
  predicate Forgets(c: State, event: Event)
    requires Enabled(c, event)
  {
    match event
    case Transfer(step) => step.Close? || T.HandedOver(c.transfer, T.Apply(c.transfer, step)).Some?
    case Changed(change) => !change.ClientText? && Apply(c, event) != c
  }

  /** What is remembered of received files after any event. */
  lemma {:induction false} MemoryIs(c: State, event: Event)
    requires Enabled(c, event)
    ensures Apply(c, event).host.lastIncomingFiles ==
        match event
        case Transfer(step) =>
          var handed := T.HandedOver(c.transfer, T.Apply(c.transfer, step));
          if step.Close? then [] else if handed.Some? then handed.value else c.host.lastIncomingFiles
        case Changed(change) =>
          if !change.ClientText? && Apply(c, event) != c then [] else c.host.lastIncomingFiles
  {
    hide T.Apply, T.Enabled, T.HandedOver, Payload, Listing, Join, Roots, Received;
  }

  lemma {:induction false} Remembered(c: State, event: Event)
    requires Enabled(c, event) && !Forgets(c, event)
    ensures Apply(c, event).host.lastIncomingFiles == c.host.lastIncomingFiles
  {
    hide T.Apply, T.Enabled, T.HandedOver, Payload, Listing, Join, Roots, Received;
  }

  ghost predicate Keeps(from: State, more: seq<Event>, j: nat)
    requires j < |more|
  {
    Exec(from, more[..j]).Some? && Enabled(Exec(from, more[..j]).value, more[j])
    && !Forgets(Exec(from, more[..j]).value, more[j])
  }

  lemma {:induction false} RememberedRun(from: State, more: seq<Event>, c: State)
    requires Exec(from, more) == Some(c) && forall j :: 0 <= j < |more| ==> Keeps(from, more, j)
    ensures c.host.lastIncomingFiles == from.host.lastIncomingFiles
    decreases |more|
  {
    hide Apply, Enabled, Forgets;
    if more != [] {
      var n := |more| - 1;
      var init := more[..n];
      forall j | 0 <= j < n ensures Keeps(from, init, j) {
        assert init[..j] == more[..j];
        assert Keeps(from, more, j);
      }
      RememberedRun(from, init, Exec(from, init).value);
      assert Keeps(from, more, n);
      Remembered(Exec(from, init).value, more[n]);
    }
  }

  /** Received files are not offered back: when the desktop reports the very paths that were handed over,
      nothing changes, however the channel went on since, until other files are received, a text or files
      are taken over, or the channel is closed. */
  lemma {:induction false} NotOfferedBack(before: State, step: T.Step, more: seq<Event>, c: State,
          roots: seq<HostRoot>)
    requires Enabled(before, Transfer(step))
    requires T.HandedOver(before.transfer, T.Apply(before.transfer, step)) == Some(Roots(roots))
    requires var from := Apply(before, Transfer(step));
             Exec(from, more) == Some(c) && forall j :: 0 <= j < |more| ==> Keeps(from, more, j)
    ensures Apply(c, Changed(HostFiles(roots))) == c
  {
    hide Exec, Keeps, Listing, Roots, Payload, T.Apply, T.Enabled;
    if step.Close? { CloseHandsNothing(before, step); }
    RememberedRun(Apply(before, Transfer(step)), more, c);
    HostFilesTakenIff(c, roots);
  }

  lemma {:induction false} CloseHandsNothing(c: State, step: T.Step)
    requires Enabled(c, Transfer(step)) && step.Close?
    ensures T.HandedOver(c.transfer, T.Apply(c.transfer, step)).None?
  {
  }
}
