/**
 * Expansion of a `>>> include` message: its lines are paths, resolved
 * against the working directory; an entry holding `**` is replaced by
 * None and its glob matches are appended after the original entries; then
 * every remaining non-directory path contributes a header and its text.
 * The filesystem is a `Host` of uninterpreted functions.
 */
module Includes {
  import opened Wrappers
  import opened Text
  import opened Errors

  /** What reading a file in text mode gives. */
  datatype ReadOutcome =
    | FileText(text: string)
    | Undecodable              // read() raised UnicodeDecodeError
    | CannotOpen(reason: string)  // open() raised OSError, which propagates

  /** The filesystem and path functions the expansion calls. */
  datatype Host = Host(
    expandUser: string -> string,   // os.path.expanduser
    isAbs: string -> bool,          // os.path.isabs
    join: (string, string) -> string,  // os.path.join
    glob: string -> seq<string>,    // glob.glob(p, recursive=True)
    isDir: string -> bool,          // os.path.isdir
    read: string -> ReadOutcome)    // open(p, "r").read()

  const BinaryPlaceholder := "Binary file, cannot display"

  /** An entry is made absolute: `~` expanded, then joined to the working directory unless absolute. */
  function Resolve(entry: string, pwd: string, host: Host): string {
    var path := host.expandUser(entry);
    if host.isAbs(path) then path else host.join(pwd, path)
  }

  predicate IsRecursiveGlob(path: string) {
    Contains(path, "**")
  }

  /** What the rewrite leaves in an original entry's place. */
  function Slot(entry: string, pwd: string, host: Host): Option<string> {
    var path := Resolve(entry, pwd, host);
    if IsRecursiveGlob(path) then None else Some(path)
  }

  /** What the rewrite appends for an original entry: its glob matches, if it is a recursive glob. */
  function Matches(entry: string, pwd: string, host: Host): seq<string> {
    var path := Resolve(entry, pwd, host);
    if IsRecursiveGlob(path) then host.glob(path) else []
  }

  /** All glob matches of the entries, entry by entry, in the order glob returns them. */
  function GlobTail(entries: seq<string>, pwd: string, host: Host): seq<string>
    decreases |entries|
  {
    if entries == [] then []
    else GlobTail(entries[..|entries| - 1], pwd, host) + Matches(entries[|entries| - 1], pwd, host)
  }

  function Somes(xs: seq<string>): (r: seq<Option<string>>)
    ensures |r| == |xs| && forall k :: 0 <= k < |xs| ==> r[k] == Some(xs[k])
  {
    seq(|xs|, k requires 0 <= k < |xs| => Some(xs[k]))
  }

  /** The list after the rewriting loop: one slot per original entry, then every glob match. */
  function RewrittenPaths(entries: seq<string>, pwd: string, host: Host): seq<Option<string>> {
    seq(|entries|, k requires 0 <= k < |entries| => Slot(entries[k], pwd, host)) + Somes(GlobTail(entries, pwd, host))
  }

  /**
   * The rewriting loop of parse_chat_messages. Its bound is the original
   * length, so the matches it appends are neither resolved nor expanded again.
   */
  method ExpandIncludePaths(entries: seq<string>, pwd: string, host: Host) returns (paths: seq<Option<string>>)
    ensures paths == RewrittenPaths(entries, pwd, host)
  {
    paths := Somes(entries);
    var n := |paths|;
    assert entries[..0] == [];
    for i := 0 to n
      invariant RewrittenUpTo(entries, pwd, host, i, paths)
    {
      ghost var before := paths;
      assert paths[i] == Some(entries[i]);
      var path := host.expandUser(paths[i].value);
      if !host.isAbs(path) {
        path := host.join(pwd, path);
      }
      assert path == Resolve(entries[i], pwd, host);
      paths := paths[i := Some(path)];
      if Contains(path, "**") {
        paths := paths[i := None];
        paths := paths + Somes(host.glob(path));
      } else {
        assert paths == paths + Somes([]);
      }
      RewriteStep(entries, pwd, host, i, before, paths);
    }
    RewrittenAll(entries, pwd, host, paths);
  }

  /**
   * The loop's invariant after i iterations: the first i entries are
   * rewritten, the others are still in place, and the matches of the first
   * i entries follow the original entries.
   */
  predicate RewrittenUpTo(entries: seq<string>, pwd: string, host: Host, i: nat, paths: seq<Option<string>>) {
    && i <= |entries| <= |paths|
    && (forall j :: 0 <= j < i ==> paths[j] == Slot(entries[j], pwd, host))
    && (forall j :: i <= j < |entries| ==> paths[j] == Some(entries[j]))
    && paths[|entries|..] == Somes(GlobTail(entries[..i], pwd, host))
  }

  /** When every entry has been visited the list is the rewritten one. */
  lemma RewrittenAll(entries: seq<string>, pwd: string, host: Host, paths: seq<Option<string>>)
    requires RewrittenUpTo(entries, pwd, host, |entries|, paths)
    ensures paths == RewrittenPaths(entries, pwd, host)
  {
    var n := |entries|;
    var slots := seq(n, k requires 0 <= k < n => Slot(entries[k], pwd, host));
    assert paths[..n] == slots;
    assert entries[..n] == entries;
    assert paths[n..] == Somes(GlobTail(entries, pwd, host));
    assert paths == paths[..n] + paths[n..];
  }

  /** One iteration of the rewriting loop keeps the loop's invariant. */
  lemma RewriteStep(entries: seq<string>, pwd: string, host: Host, i: nat, before: seq<Option<string>>, after: seq<Option<string>>)
    requires i < |entries| && RewrittenUpTo(entries, pwd, host, i, before)
    requires after == before[i := Slot(entries[i], pwd, host)] + Somes(Matches(entries[i], pwd, host))
    ensures RewrittenUpTo(entries, pwd, host, i + 1, after)
  {
    RewriteSlots(entries, pwd, host, i, before, after);
    RewriteTail(entries, pwd, host, i, before, after);
  }

  /** The iteration rewrites entry i in place and leaves the other entries alone. */
  lemma RewriteSlots(entries: seq<string>, pwd: string, host: Host, i: nat, before: seq<Option<string>>, after: seq<Option<string>>)
    requires i < |entries| && RewrittenUpTo(entries, pwd, host, i, before)
    requires after == before[i := Slot(entries[i], pwd, host)] + Somes(Matches(entries[i], pwd, host))
    ensures |after| >= |entries|
    ensures forall j :: 0 <= j < i + 1 ==> after[j] == Slot(entries[j], pwd, host)
    ensures forall j :: i + 1 <= j < |entries| ==> after[j] == Some(entries[j])
  {
  }

  /** The iteration appends entry i's matches after those of the earlier entries. */
  lemma RewriteTail(entries: seq<string>, pwd: string, host: Host, i: nat, before: seq<Option<string>>, after: seq<Option<string>>)
    requires i < |entries| && RewrittenUpTo(entries, pwd, host, i, before)
    requires after == before[i := Slot(entries[i], pwd, host)] + Somes(Matches(entries[i], pwd, host))
    ensures after[|entries|..] == Somes(GlobTail(entries[..i + 1], pwd, host))
  {
    var n := |entries|;
    var updated := before[i := Slot(entries[i], pwd, host)];
    var found := Matches(entries[i], pwd, host);
    assert updated[n..] == before[n..];
    assert after[n..] == updated[n..] + Somes(found);
    GlobTailStep(entries, pwd, host, i);
    SomesAppend(GlobTail(entries[..i], pwd, host), found);
  }

  lemma SomesAppend(xs: seq<string>, ys: seq<string>)
    ensures Somes(xs + ys) == Somes(xs) + Somes(ys)
  {
  }

  lemma GlobTailStep(entries: seq<string>, pwd: string, host: Host, i: nat)
    requires i < |entries|
    ensures GlobTail(entries[..i + 1], pwd, host) == GlobTail(entries[..i], pwd, host) + Matches(entries[i], pwd, host)
  {
    assert entries[..i + 1][..i] == entries[..i];
  }

  /** The header a file is shown under. */
  function Header(path: string): string {
    "\n\n==> " + path + " <==\n"
  }

  /** What one slot of the rewritten list adds to the message. */
  function Section(slot: Option<string>, host: Host): Result<string, Error> {
    match slot
    case None => Success("")
    case Some(path) =>
      if host.isDir(path) then Success("")
      else match host.read(path)
        case FileText(text) => Success("\n\n==> " + path + " <==\n" + text)
        case Undecodable => Success("\n\n" + "==> " + path + " <==" + "\n" + BinaryPlaceholder)
        case CannotOpen(reason) => Failure(OsError(reason))
  }

  /** The content built from the rewritten list; the first file that cannot be opened aborts it. */
  function IncludeContent(paths: seq<Option<string>>, host: Host): Result<string, Error>
    decreases |paths|
  {
    if paths == [] then Success("")
    else match IncludeContent(paths[..|paths| - 1], host)
      case Failure(e) => Failure(e)
      case Success(content) =>
        match Section(paths[|paths| - 1], host)
        case Failure(e) => Failure(e)
        case Success(section) => Success(content + section)
  }

  /** The reading loop of parse_chat_messages. */
  method ReadIncludedFiles(paths: seq<Option<string>>, host: Host) returns (r: Result<string, Error>)
    ensures r == IncludeContent(paths, host)
  {
    var content := "";
    for i := 0 to |paths|
      invariant IncludeContent(paths[..i], host) == Success(content)
    {
      ContentStep(paths, host, i);
      var path := paths[i];
      if path.None? {
        assert content + "" == content;
        continue;
      }
      if host.isDir(path.value) {
        assert content + "" == content;
        continue;
      }
      match host.read(path.value)
      case FileText(text) =>
        content := content + ("\n\n==> " + path.value + " <==\n" + text);
      case Undecodable =>
        ghost var section := "\n\n" + "==> " + path.value + " <==" + "\n" + BinaryPlaceholder;
        ghost var expected := content + section;
        content := content + "\n\n" + "==> " + path.value + " <==";
        content := content + "\n" + BinaryPlaceholder;
        assert content == expected;
      case CannotOpen(reason) =>
        FailureSticks(paths, host, i + 1);
        return Failure(OsError(reason));
    }
    assert paths[..|paths|] == paths;
    return Success(content);
  }

  /** One more slot extends the content by that slot's section, or fails with it. */
  lemma ContentStep(paths: seq<Option<string>>, host: Host, i: nat)
    requires i < |paths|
    ensures IncludeContent(paths[..i + 1], host) ==
      match IncludeContent(paths[..i], host)
      case Failure(e) => Failure(e)
      case Success(content) =>
        match Section(paths[i], host)
        case Failure(e) => Failure(e)
        case Success(section) => Success(content + section)
  {
    assert paths[..i + 1][..i] == paths[..i];
  }

  /** Once a prefix of the list fails, the whole list fails the same way. */
  lemma {:induction false} FailureSticks(paths: seq<Option<string>>, host: Host, i: nat)
    requires i <= |paths| && IncludeContent(paths[..i], host).Failure?
    ensures IncludeContent(paths, host) == IncludeContent(paths[..i], host)
    decreases |paths| - i
  {
    if i < |paths| {
      assert paths[..i + 1][..i] == paths[..i];
      FailureSticks(paths, host, i + 1);
    } else {
      assert paths[..i] == paths;
    }
  }

  /** The whole expansion of one include message's stripped content. */
  function ExpandInclude(content: string, pwd: string, host: Host): Result<string, Error> {
    IncludeContent(RewrittenPaths(Split(content, '\n'), pwd, host), host)
  }

  /** Rewriting keeps one slot per entry: None exactly for recursive globs, the resolved path otherwise; matches follow verbatim. */
  lemma RewrittenLayout(entries: seq<string>, pwd: string, host: Host)
    ensures var paths := RewrittenPaths(entries, pwd, host);
            && |paths| == |entries| + |GlobTail(entries, pwd, host)|
            && (forall k :: 0 <= k < |entries| ==>
                  (paths[k] == None <==> IsRecursiveGlob(Resolve(entries[k], pwd, host))))
            && (forall k :: 0 <= k < |entries| && paths[k] != None ==> paths[k] == Some(Resolve(entries[k], pwd, host)))
            && (forall k :: |entries| <= k < |paths| ==> paths[k] == Some(GlobTail(entries, pwd, host)[k - |entries|]))
  {
  }

  /** Without recursive globs the list is only resolved: nothing is appended and nothing is dropped. */
  lemma {:induction false} NoGlobNoTail(entries: seq<string>, pwd: string, host: Host)
    requires forall k :: 0 <= k < |entries| ==> !IsRecursiveGlob(Resolve(entries[k], pwd, host))
    ensures GlobTail(entries, pwd, host) == []
    ensures RewrittenPaths(entries, pwd, host) == seq(|entries|, k requires 0 <= k < |entries| => Some(Resolve(entries[k], pwd, host)))
    decreases |entries|
  {
    if entries != [] {
      var init := entries[..|entries| - 1];
      assert forall k :: 0 <= k < |init| ==> init[k] == entries[k];
      NoGlobNoTail(init, pwd, host);
    }
  }

  /** The matches of every recursive glob, and only of those, make up the tail. */
  lemma {:induction false} GlobTailFromGlobs(entries: seq<string>, pwd: string, host: Host, x: string)
    requires x in GlobTail(entries, pwd, host)
    ensures exists k :: 0 <= k < |entries| && IsRecursiveGlob(Resolve(entries[k], pwd, host))
                        && x in host.glob(Resolve(entries[k], pwd, host))
    decreases |entries|
  {
    var n := |entries|;
    var init := entries[..n - 1];
    if x in GlobTail(init, pwd, host) {
      GlobTailFromGlobs(init, pwd, host, x);
      var k :| 0 <= k < |init| && IsRecursiveGlob(Resolve(init[k], pwd, host)) && x in host.glob(Resolve(init[k], pwd, host));
      assert init[k] == entries[k];
    } else {
      assert x in Matches(entries[n - 1], pwd, host);
    }
  }

  /** The paths that are read: the present, non-directory slots, in list order. */
  function Opened(paths: seq<Option<string>>, host: Host): seq<string>
    decreases |paths|
  {
    if paths == [] then []
    else
      var init := Opened(paths[..|paths| - 1], host);
      match paths[|paths| - 1]
      case None => init
      case Some(p) => if host.isDir(p) then init else init + [p]
  }

  /** What a file shows under its header: its text, or the placeholder when it is not text. */
  function Shown(path: string, host: Host): string {
    match host.read(path)
    case FileText(text) => text
    case _ => BinaryPlaceholder
  }

  /** Header and shown text of each path, concatenated. */
  function Rendered(paths: seq<string>, host: Host): string
    decreases |paths|
  {
    if paths == [] then ""
    else Rendered(paths[..|paths| - 1], host) + Header(paths[|paths| - 1]) + Shown(paths[|paths| - 1], host)
  }

  predicate Openable(path: string, host: Host) {
    !host.read(path).CannotOpen?
  }

  /**
   * The expansion fails exactly when some path that is read cannot be
   * opened; otherwise it is each read path's header and text, a binary file
   * showing the placeholder in place of its text.
   */
  lemma {:induction false} IncludeContentIsRendered(paths: seq<Option<string>>, host: Host)
    ensures IncludeContent(paths, host).Success? <==> forall p :: p in Opened(paths, host) ==> Openable(p, host)
    ensures IncludeContent(paths, host).Success? ==> IncludeContent(paths, host).value == Rendered(Opened(paths, host), host)
    decreases |paths|
  {
    if paths != [] {
      var init := paths[..|paths| - 1];
      IncludeContentIsRendered(init, host);
      SnocParts(init, paths[|paths| - 1]);
      assert paths == init + [paths[|paths| - 1]];
      RenderedStep(init, paths[|paths| - 1], host);
    }
  }

  /** One more slot keeps the content's description. */
  lemma RenderedStep(init: seq<Option<string>>, slot: Option<string>, host: Host)
    requires IncludeContent(init, host).Success? <==> forall p :: p in Opened(init, host) ==> Openable(p, host)
    requires IncludeContent(init, host).Success? ==> IncludeContent(init, host).value == Rendered(Opened(init, host), host)
    ensures var paths := init + [slot];
            IncludeContent(paths, host).Success? <==> forall p :: p in Opened(paths, host) ==> Openable(p, host)
    ensures var paths := init + [slot];
            IncludeContent(paths, host).Success? ==> IncludeContent(paths, host).value == Rendered(Opened(paths, host), host)
  {
    SnocParts(init, slot);
    var before := Opened(init, host);
    match slot
    case None =>
    case Some(p) =>
      if !host.isDir(p) {
        SectionShape(p, host);
        var files := before + [p];
        SnocParts(before, p);
        assert forall q :: q in files <==> q in before || q == p;
      }
  }

  /** A text file and a binary file both show as a header and a body. */
  lemma SectionShape(path: string, host: Host)
    requires !host.isDir(path)
    ensures Section(Some(path), host).Success? <==> Openable(path, host)
    ensures Openable(path, host) ==> Section(Some(path), host) == Success(Header(path) + Shown(path, host))
  {
    if host.read(path).Undecodable? {
      assert "\n\n" + "==> " + path + " <==" + "\n" + BinaryPlaceholder == Header(path) + BinaryPlaceholder;
    }
  }

  /** A recursive glob that matches nothing leaves the message empty. */
  lemma EmptyGlob(entry: string, pwd: string, host: Host)
    requires '\n' !in entry
    requires IsRecursiveGlob(Resolve(entry, pwd, host)) && host.glob(Resolve(entry, pwd, host)) == []
    ensures ExpandInclude(entry, pwd, host) == Success("")
  {
    SplitWithoutSeparator(entry, '\n');
    var paths := RewrittenPaths([entry], pwd, host);
    assert GlobTail([entry], pwd, host) == GlobTail([], pwd, host) + Matches(entry, pwd, host);
    assert paths == [None];
    assert IncludeContent(paths, host) == Success("" + "");
  }

  /** A single readable file resolves to its header followed by its exact text. */
  lemma SingleFile(entry: string, pwd: string, host: Host, text: string)
    requires '\n' !in entry
    requires var p := Resolve(entry, pwd, host);
             !IsRecursiveGlob(p) && !host.isDir(p) && host.read(p) == FileText(text)
    ensures ExpandInclude(entry, pwd, host) == Success("\n\n==> " + Resolve(entry, pwd, host) + " <==\n" + text)
  {
    SplitWithoutSeparator(entry, '\n');
    var p := Resolve(entry, pwd, host);
    var paths := RewrittenPaths([entry], pwd, host);
    assert GlobTail([entry], pwd, host) == GlobTail([], pwd, host) + Matches(entry, pwd, host);
    assert paths == [Some(p)];
    assert paths[..0] == [];
    assert IncludeContent(paths[..0], host) == Success("");
    assert Section(Some(p), host) == Success("\n\n==> " + p + " <==\n" + text);
    assert "" + ("\n\n==> " + p + " <==\n" + text) == "\n\n==> " + p + " <==\n" + text;
  }
}
