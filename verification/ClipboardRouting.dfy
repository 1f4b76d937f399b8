/**
 What the desktop's clipboard notifications turn into: Klipper's text may spell files, and then it is
 handled as files.
 */
module ClipboardRouting {
  import opened Basics
  import opened ClipboardDescriptor
  import opened ClipboardText
  import opened ClipboardSender

  /** What the file system and the URL library say: which paths exist, and the local path of a URL. */
  datatype Desktop = Desktop(present: Name -> bool, local: Name -> Name)

  datatype Routed = Dropped | AsFiles(files: seq<Name>) | AsText(text: Name)

  predicate IsSpace(u: Unit) {
    9 <= u <= 13 || u == 0x20 || u == 0x85 || u == 0xA0 || u == 0x1680 || 0x2000 <= u <= 0x200A
    || u == 0x2028 || u == 0x2029 || u == 0x202F || u == 0x205F || u == 0x3000
  }

  function TrimLeft(t: Name): (r: Name)
    ensures r != [] ==> !IsSpace(r[0])
  {
    if t != [] && IsSpace(t[0]) then TrimLeft(t[1..]) else t
  }

  function TrimRight(t: Name): (r: Name)
    ensures r != [] ==> !IsSpace(r[|r| - 1])
    ensures |r| <= |t| && r == t[..|r|]
  {
    if t != [] && IsSpace(t[|t| - 1]) then TrimRight(t[..|t| - 1]) else t
  }

  function Trimmed(t: Name): Name {
    TrimRight(TrimLeft(t))
  }

  function LineEnd(t: Name): (n: nat)
    ensures n <= |t| && (n < |t| ==> t[n] == LF) && LF !in t[..n]
  {
    if t == [] || t[0] == LF then 0 else 1 + LineEnd(t[1..])
  }

  /** The nonempty lines. */
  function Lines(t: Name): seq<Name>
    decreases |t|
  {
    if t == [] then []
    else
      var n := LineEnd(t);
      (if n == 0 then [] else [t[..n]]) + (if n < |t| then Lines(t[n + 1..]) else [])
  }

  /** "file://" */
  const FILE_SCHEME: Name := [102, 105, 108, 101, 58, 47, 47]

  /** The existing file a line names, as a URL or as an absolute path. */
  function FileOf(d: Desktop, line: Name): Option<Name> {
    var l := Trimmed(line);
    if FILE_SCHEME <= l then
      if d.local(l) != [] && d.present(d.local(l)) then Some(d.local(l)) else None
    else if l != [] && l[0] == SLASH && d.present(l) then Some(l)
    else None
  }

  /** The files of all lines; None when some line names none. */
  function FilesOf(d: Desktop, lines: seq<Name>): Option<seq<Name>> {
    if lines == [] then Some([])
    else
      var first := FileOf(d, lines[0]);
      if first.None? then None
      else
        var rest := FilesOf(d, lines[1..]);
        if rest.None? then None else Some([first.value] + rest.value)
  }

  function Route(d: Desktop, reported: Name): Routed {
    var text := Trimmed(reported);
    if text == [] then Dropped
    else
      var files := FilesOf(d, Lines(text));
      if files.Some? && files.value != [] then AsFiles(files.value) else AsText(text)
  }

  /** The loop over the lines, which stops at the first one that names no file. */
  method OnKlipperClipboardHistoryUpdated(d: Desktop, reported: Name) returns (routed: Routed)
    ensures routed == Route(d, reported)
  {
    hide Trimmed, Lines, FileOf;
    var text := Trimmed(reported);
    if text == [] { return Dropped; }
    var lines := Lines(text);
    var files: seq<Name> := [];
    var allFiles := true;
    var i := 0;
    assert lines[0..] == lines;
    if FilesOf(d, lines).Some? { assert files + FilesOf(d, lines).value == FilesOf(d, lines).value; }
    while i < |lines|
      invariant i <= |lines| && allFiles
      invariant FilesOf(d, lines) ==
          (if FilesOf(d, lines[i..]).None? then None else Some(files + FilesOf(d, lines[i..]).value))
      decreases |lines| - i
    {
      assert lines[i..][1..] == lines[i + 1..];
      var file := FileOf(d, lines[i]);
      if file.None? {
        allFiles := false;
        break;
      }
      ghost var rest := FilesOf(d, lines[i + 1..]);
      if rest.Some? { assert (files + [file.value]) + rest.value == files + ([file.value] + rest.value); }
      files := files + [file.value];
      i := i + 1;
    }
    if allFiles && files != [] { return AsFiles(files); }
    return AsText(text);
  }

  lemma {:induction false} FilesOfNone(d: Desktop, lines: seq<Name>)
    ensures FilesOf(d, lines).None? <==> exists k :: 0 <= k < |lines| && FileOf(d, lines[k]).None?
    ensures FilesOf(d, lines).Some? ==> |FilesOf(d, lines).value| == |lines|
  {
    hide FileOf;
    if lines != [] {
      FilesOfNone(d, lines[1..]);
      assert forall k :: 0 < k < |lines| ==> lines[k] == lines[1..][k - 1];
    }
  }

  lemma {:induction false} SomeLine(t: Name)
    requires t != [] && t[0] != LF
    ensures Lines(t) != []
  {
  }

  /** Exactly the texts that reach the text handler: not blank, and some line names no existing file. */
  lemma {:induction false} ReachesTextIff(d: Desktop, reported: Name)
    ensures Route(d, reported).AsText? <==>
              Trimmed(reported) != []
              && exists k :: 0 <= k < |Lines(Trimmed(reported))| && FileOf(d, Lines(Trimmed(reported))[k]).None?
    ensures Route(d, reported).AsText? ==> Route(d, reported).text == Trimmed(reported)
  {
    hide Lines, FileOf, FilesOf;
    var text := Trimmed(reported);
    if text != [] {
      FilesOfNone(d, Lines(text));
      FirstKept(TrimLeft(reported));
      SomeLine(text);
    }
  }

  lemma {:induction false} FirstKept(t: Name)
    ensures TrimRight(t) != [] ==> TrimRight(t)[0] == t[0]
  {
  }

  // The paths of a file offer, reported as text.

  /** One line, without white space at its ends. */
  predicate Clean(l: Name) {
    l != [] && LF !in l && !IsSpace(l[0]) && !IsSpace(l[|l| - 1])
  }

  lemma {:induction false} CleanTrimmed(l: Name)
    requires Clean(l)
    ensures Trimmed(l) == l && Trimmed(l + [CR]) == l
  {
    assert (l + [CR])[..|l|] == l;
    assert TrimRight(l + [CR]) == TrimRight(l) == l;
  }

  lemma {:induction false} LineEndAt(a: Name, b: Name)
    requires LF !in a && (b == [] || b[0] == LF)
    ensures LineEnd(a + b) == |a|
  {
    if a != [] {
      assert (a + b)[0] == a[0] && (a + b)[1..] == a[1..] + b;
      LineEndAt(a[1..], b);
    } else {
      assert a + b == b;
    }
  }

  /** A text is its first line, and then the lines after that. */
  lemma {:induction false} LinesMean(line: Name, rest: Name)
    requires LF !in line
    ensures Lines(line + [LF] + rest) == (if line == [] then [] else [line]) + Lines(rest)
    ensures Lines(line) == if line == [] then [] else [line]
  {
    var whole := line + [LF] + rest;
    assert whole == line + ([LF] + rest);
    LineEndAt(line, [LF] + rest);
    assert whole[..|line|] == line && whole[|line| + 1..] == rest;
    LineEndAt(line, []);
    assert line + [] == line && line[..|line|] == line;
  }

  /** What is trimmed off is white space, and what remains begins and ends with none. */
  lemma {:induction false} TrimmedMeans(t: Name) returns (front: Name, back: Name)
    ensures t == front + Trimmed(t) + back
    ensures (forall u :: u in front || u in back ==> IsSpace(u))
    ensures Trimmed(t) != [] ==> !IsSpace(Trimmed(t)[0]) && !IsSpace(Trimmed(t)[|Trimmed(t)| - 1])
  {
    hide IsSpace, TrimLeft, TrimRight;
    front := LeftMeans(t);
    back := RightMeans(TrimLeft(t));
    assert t == front + (Trimmed(t) + back);
    FirstKept(TrimLeft(t));
  }

  lemma {:induction false} LeftMeans(t: Name) returns (front: Name)
    ensures t == front + TrimLeft(t) && forall u :: u in front ==> IsSpace(u)
  {
    hide IsSpace;
    front := [];
    if t != [] && IsSpace(t[0]) {
      front := LeftMeans(t[1..]);
      front := [t[0]] + front;
    }
  }

  lemma {:induction false} RightMeans(t: Name) returns (back: Name)
    ensures t == TrimRight(t) + back && forall u :: u in back ==> IsSpace(u)
  {
    hide IsSpace;
    back := [];
    if t != [] && IsSpace(t[|t| - 1]) {
      back := RightMeans(t[..|t| - 1]);
      back := back + [t[|t| - 1]];
    }
  }

  /** What separates the lines, up to the line feed. */
  function LineTail(separator: Name): Name {
    if separator == [CR, LF] then [CR] else []
  }

  lemma {:induction false} FirstLine(l: Name, separator: Name, rest: Name)
    requires Clean(l) && (separator == [LF] || separator == [CR, LF])
    ensures Lines(l + separator + rest) == [l + LineTail(separator)] + Lines(rest)
    ensures Lines(l) == [l]
  {
    var line := l + LineTail(separator);
    assert LF !in line;
    assert l + separator + rest == line + [LF] + rest;
    LinesMean(line, rest);
    LinesMean(l, rest);
  }

  lemma {:induction false} SameFile(d: Desktop, l: Name, separator: Name)
    requires Clean(l) && (separator == [LF] || separator == [CR, LF])
    ensures FileOf(d, l + LineTail(separator)) == FileOf(d, l)
  {
    hide Trimmed, Clean;
    CleanTrimmed(l);
    assert l + [] == l;
  }

  lemma {:induction false} JoinedLines(d: Desktop, lines: seq<Name>, separator: Name)
    requires lines != [] && (separator == [LF] || separator == [CR, LF])
    requires forall k :: 0 <= k < |lines| ==> Clean(lines[k])
    ensures FilesOf(d, Lines(Join(lines, separator))) == FilesOf(d, lines)
  {
    hide Lines, FileOf, Clean;
    var l := lines[0];
    SameFile(d, l, separator);
    if |lines| == 1 {
      FirstLine(l, separator, []);
      assert lines == [l];
    } else {
      JoinedLines(d, lines[1..], separator);
      FirstLine(l, separator, Join(lines[1..], separator));
      var line := l + LineTail(separator);
      var rest := Lines(Join(lines[1..], separator));
      assert Join(lines, separator) == l + separator + Join(lines[1..], separator);
      assert ([line] + rest)[0] == line && ([line] + rest)[1..] == rest;
    }
  }

  lemma {:induction false} JoinTrimmed(lines: seq<Name>, separator: Name)
    requires lines != [] && forall k :: 0 <= k < |lines| ==> Clean(lines[k])
    ensures lines[0] != []
    ensures var t := Join(lines, separator);
            t != [] && t[0] == lines[0][0] && !IsSpace(t[|t| - 1]) && Trimmed(t) == t
  {
    if |lines| > 1 { JoinTrimmed(lines[1..], separator); }
  }

  /** Clean lines are handled as files when each of them names one, and else as a text. */
  lemma {:induction false} RouteOfLines(d: Desktop, lines: seq<Name>, separator: Name)
    requires lines != [] && (separator == [LF] || separator == [CR, LF])
    requires forall k :: 0 <= k < |lines| ==> Clean(lines[k])
    ensures Route(d, Join(lines, separator)) ==
        if FilesOf(d, lines).Some? then AsFiles(FilesOf(d, lines).value) else AsText(Join(lines, separator))
  {
    hide Lines, FileOf, Trimmed, Clean, IsSpace, Join;
    JoinTrimmed(lines, separator);
    JoinedLines(d, lines, separator);
    FilesOfNone(d, lines);
  }

  /** What a line says where it says a file: an absolute path, or a URL of the scheme "file". */
  predicate Says(d: Desktop, line: Name, file: Name) {
    && Clean(line) && file != [] && d.present(file)
    && (if FILE_SCHEME <= line then d.local(line) == file else line[0] == SLASH && line == file)
  }

  lemma {:induction false} SaysIff(d: Desktop, line: Name, file: Name)
    requires Clean(line)
    ensures FileOf(d, line) == Some(file) <==> Says(d, line, file)
  {
    hide Trimmed;
    CleanTrimmed(line);
  }

  ghost predicate AllSay(d: Desktop, lines: seq<Name>, files: seq<Name>) {
    |files| == |lines| && forall k :: 0 <= k < |lines| ==> Says(d, lines[k], files[k])
  }

  /** A report, one entry to a line, is handled as these files exactly when its lines name them, each by
      its URL or by its absolute path, and they exist. */
  lemma {:induction false} FilesReportedIff(d: Desktop, lines: seq<Name>, files: seq<Name>, separator: Name)
    requires lines != [] && (separator == [LF] || separator == [CR, LF])
    requires forall k :: 0 <= k < |lines| ==> Clean(lines[k])
    ensures Route(d, Join(lines, separator)) == AsFiles(files) <==> AllSay(d, lines, files)
  {
    hide Route, Join, FilesOf, Clean, AllSay;
    FilesSaid(d, lines, files);
    RouteOfLines(d, lines, separator);
  }

  lemma {:induction false} FilesSaid(d: Desktop, lines: seq<Name>, files: seq<Name>)
    requires forall k :: 0 <= k < |lines| ==> Clean(lines[k])
    ensures FilesOf(d, lines) == Some(files) <==> AllSay(d, lines, files)
  {
    hide FileOf, Clean, Says;
    if lines != [] {
      if files != [] {
        SaysIff(d, lines[0], files[0]);
        FilesSaid(d, lines[1..], files[1..]);
        assert files == [files[0]] + files[1..];
        SayTail(d, lines, files);
      }
      if FileOf(d, lines[0]).Some? && FilesOf(d, lines[1..]).Some? {
        assert FilesOf(d, lines).value[0] == FileOf(d, lines[0]).value;
        assert FilesOf(d, lines).value[1..] == FilesOf(d, lines[1..]).value;
      }
    }
  }

  lemma {:induction false} SayTail(d: Desktop, lines: seq<Name>, files: seq<Name>)
    requires lines != [] && files != []
    ensures AllSay(d, lines, files) <==> Says(d, lines[0], files[0]) && AllSay(d, lines[1..], files[1..])
  {
    hide Says;
    assert |files| == |lines| ==> forall k :: 0 < k < |lines| ==>
        lines[k] == lines[1..][k - 1] && files[k] == files[1..][k - 1];
  }

  /** An absolute path of one line, without white space at its end. */
  predicate Plain(p: Name) {
    p != [] && p[0] == SLASH && LF !in p && !IsSpace(p[|p| - 1])
  }

  ghost predicate AllPresent(d: Desktop, paths: seq<Name>) {
    forall k :: 0 <= k < |paths| ==> d.present(paths[k])
  }

  lemma {:induction false} PlainFile(d: Desktop, p: Name)
    requires Plain(p)
    ensures Clean(p) && FileOf(d, p) == if d.present(p) then Some(p) else None
  {
    hide Trimmed;
    CleanTrimmed(p);
    assert FILE_SCHEME[0] == 102;
  }

  lemma {:induction false} PlainFiles(d: Desktop, paths: seq<Name>)
    requires forall k :: 0 <= k < |paths| ==> Plain(paths[k])
    ensures FilesOf(d, paths) == if AllPresent(d, paths) then Some(paths) else None
  {
    hide FileOf, Plain;
    if paths != [] {
      PlainFile(d, paths[0]);
      PlainFiles(d, paths[1..]);
      assert paths == [paths[0]] + paths[1..];
      assert AllPresent(d, paths) <==> d.present(paths[0]) && AllPresent(d, paths[1..]) by { PresentTail(d, paths); }
    }
  }

  lemma {:induction false} PresentTail(d: Desktop, paths: seq<Name>)
    requires paths != []
    ensures AllPresent(d, paths) <==> d.present(paths[0]) && AllPresent(d, paths[1..])
  {
    assert forall k :: 0 < k < |paths| ==> paths[k] == paths[1..][k - 1];
  }

  /** The text of an offer is handled as the very same files while they all exist, else as a text. */
  lemma {:induction false} RouteOfPaths(d: Desktop, paths: seq<Name>, separator: Name)
    requires paths != [] && (separator == [LF] || separator == [CR, LF])
    requires forall k :: 0 <= k < |paths| ==> Plain(paths[k])
    ensures Route(d, Join(paths, separator)) == if AllPresent(d, paths) then AsFiles(paths)
        else AsText(Join(paths, separator))
  {
    hide Route, FilesOf, Plain, Join, AllPresent, Clean;
    forall k | 0 <= k < |paths| ensures Clean(paths[k]) { PlainFile(d, paths[k]); }
    PlainFiles(d, paths);
    RouteOfLines(d, paths, separator);
  }

  /** These paths, as the file system holds them when they are listed again. */
  ghost predicate FoundNow(d: Desktop, paths: seq<Name>, now: seq<HostRoot>) {
    |now| == |paths|
    && forall k :: 0 <= k < |paths| ==> now[k].path == paths[k] && now[k].present == d.present(paths[k])
  }

  lemma {:induction false} RootsNow(d: Desktop, paths: seq<Name>, now: seq<HostRoot>)
    requires FoundNow(d, paths, now) && AllPresent(d, paths)
    ensures Roots(now) == paths
  {
    if now != [] {
      var n := |now| - 1;
      RootsNow(d, paths[..n], now[..n]);
      assert paths == paths[..n] + [paths[n]];
    }
  }

  /** What a report does to the host's side; files are listed again. */
  function Reported(s: Host, receiving: bool, d: Desktop, report: Name, now: seq<HostRoot>, url: Name): Host {
    match Route(d, report)
    case Dropped => s
    case AsFiles(_) => Take(s, receiving, HostFiles(now))
    case AsText(text) => Take(s, receiving, HostText(text, url))
  }

  /** Klipper's report of the text of a fresh offer, with the file system as it is by then. While every
      copied path exists the report is handled as these files, and leaves the offer alone exactly when
      listing them again, directory contents included, gives the same paths; otherwise the new listing
      replaces it. Once a copied path is gone the report is handled as a text, and leaves the offer alone
      exactly when no directory content was listed; otherwise it replaces the offer. */
  lemma {:induction false} EchoKeepsOfferIff(s: Host, d: Desktop, roots: seq<HostRoot>, now: seq<HostRoot>,
          separator: Name, url: Name)
    requires TakesFiles(s, false, roots) && (separator == [LF] || separator == [CR, LF])
    requires forall k :: 0 <= k < |Listing(roots)| ==> LF !in Listing(roots)[k].fullPath
    requires forall k :: 0 <= k < |Roots(roots)| ==> Plain(Roots(roots)[k])
    requires FoundNow(d, Roots(roots), now)
    ensures var t := Take(s, false, HostFiles(roots));
            var u := Reported(t, false, d, Join(Roots(roots), separator), now, url);
            && (u == t <==>
                  if AllPresent(d, Roots(roots)) then FullPaths(Listing(now)) == FullPaths(Listing(roots))
                  else |Listing(roots)| == |Roots(roots)|)
            && (u != t ==> u.outgoingFiles == if AllPresent(d, Roots(roots)) then FullPaths(Listing(now)) else [])
  {
    hide Listing, Roots, Plain, Route, Join, Payload, AllPresent, FoundNow;
    EmptyRoots(roots);
    EmptyRoots(now);
    RouteOfPaths(d, Roots(roots), separator);
    OwnTextKeepsOfferIff(s, roots, separator, url);
    if AllPresent(d, Roots(roots)) { RootsNow(d, Roots(roots), now); }
  }

  /** A directory whose content changed since it was copied is such a case, though every copied path
      still exists. */
  lemma {:induction false} ChangedDirectoryReplacesOffer(d: Desktop, own: Entry, child: Listed, url: Name)
    requires d.present([SLASH, 100]) && LF !in child.fullPath
    ensures var roots := [HostRoot([SLASH, 100], true, own, [child])];
            var now := [HostRoot([SLASH, 100], true, own, [])];
            var t := Take(EMPTY, false, HostFiles(roots));
            && t.outgoingFiles == [[SLASH, 100], child.fullPath]
            && Reported(t, false, d, Join(Roots(roots), [LF]), now, url).outgoingFiles == [[SLASH, 100]]
  {
    hide Route, Join, Payload;
    var path: Name := [SLASH, 100];
    var roots, now := [HostRoot(path, true, own, [child])], [HostRoot(path, true, own, [])];
    assert roots[..0] == [] && now[..0] == [];
    assert Roots([]) == [] && Listing([]) == [];
    assert Roots(roots) == [path] && Roots(now) == [path];
    assert Listing(roots) == [Listed(path, own), child] && Listing(now) == [Listed(path, own)];
    assert FullPaths(Listing(roots)) == [path, child.fullPath] && FullPaths(Listing(now)) == [path];
    assert LF !in path && !IsSpace(path[|path| - 1]);
    forall k | 0 <= k < |Listing(roots)| ensures LF !in Listing(roots)[k].fullPath { }
    EchoKeepsOfferIff(EMPTY, d, roots, now, [LF], url);
  }
}
