/**
 * `parse_chat_messages`: the buffer text is scanned line by line; each
 * marker line opens a message, every other line after the first marker is
 * appended (preceded by a newline) to the message opened last. Then every
 * message is stripped, and an include message is expanded and becomes a
 * user message.
 */
module Transcript {
  import opened Wrappers
  import opened Text
  import opened Errors
  import opened Includes

  /** `include` lives only between the scan and the finishing pass. */
  datatype Role = System | User | Include | Assistant

  datatype Message = Message(role: Role, content: string)

  const SystemMarker := ">>> system"
  const UserMarker := ">>> user"
  const IncludeMarker := ">>> include"
  const AssistantMarker := "<<< assistant"

  function Marker(r: Role): string {
    match r
    case System => SystemMarker
    case User => UserMarker
    case Include => IncludeMarker
    case Assistant => AssistantMarker
  }

  /** The role a line opens: the first of the four prefixes it starts with, tried in source order. */
  function MarkerRole(line: string): Option<Role> {
    if StartsWith(line, SystemMarker) then Some(System)
    else if StartsWith(line, UserMarker) then Some(User)
    else if StartsWith(line, IncludeMarker) then Some(Include)
    else if StartsWith(line, AssistantMarker) then Some(Assistant)
    else None
  }

  predicate IsMarker(line: string) {
    MarkerRole(line).Some?
  }

  /** A line opens role `r` exactly when it starts with `r`'s marker, whatever follows it. */
  lemma MarkerRoleIffPrefix(line: string, r: Role)
    ensures MarkerRole(line) == Some(r) <==> StartsWith(line, Marker(r))
  {
    if StartsWith(line, Marker(r)) {
      assert line[..|Marker(r)|] == Marker(r);
      assert line[0] == Marker(r)[0] && line[4] == Marker(r)[4];
    }
  }

  /** `>>> user extra` still opens a user message. */
  lemma UserMarkerWithSuffix(line: string)
    requires line == UserMarker + " extra"
    ensures MarkerRole(line) == Some(User)
  {
    MarkerRoleIffPrefix(line, User);
    assert line[..|UserMarker|] == UserMarker;
  }

  /** One iteration of the scanning loop. */
  function ScanStep(messages: seq<Message>, line: string): seq<Message> {
    match MarkerRole(line)
    case Some(r) => messages + [Message(r, "")]
    case None =>
      if messages == [] then messages
      else
        var last := messages[|messages| - 1];
        messages[..|messages| - 1] + [Message(last.role, last.content + "\n" + line)]
  }

  /** The non-marker lines at the head of `lines`. */
  function Body(lines: seq<string>): seq<string>
    decreases |lines|
  {
    if lines == [] || IsMarker(lines[0]) then [] else [lines[0]] + Body(lines[1..])
  }

  /** Each line preceded by a newline, concatenated. */
  function Joined(lines: seq<string>): string
    decreases |lines|
  {
    if lines == [] then "" else "\n" + lines[0] + Joined(lines[1..])
  }

  /**
   * The messages before finishing, defined from the front: one per marker
   * line, holding the non-marker lines that follow it up to the next marker.
   */
  function Blocks(lines: seq<string>): seq<Message>
    decreases |lines|
  {
    if lines == [] then []
    else match MarkerRole(lines[0])
      case Some(r) => [Message(r, Joined(Body(lines[1..])))] + Blocks(lines[1..])
      case None => Blocks(lines[1..])
  }

  predicate NoMarkers(lines: seq<string>) {
    forall k :: 0 <= k < |lines| ==> !IsMarker(lines[k])
  }

  lemma {:induction false} BlocksEmptyIff(lines: seq<string>)
    ensures Blocks(lines) == [] <==> NoMarkers(lines)
    ensures NoMarkers(lines) ==> Body(lines) == lines
    decreases |lines|
  {
    if lines != [] {
      BlocksEmptyIff(lines[1..]);
      HeadTail(lines);
      NoMarkersCons(lines[0], lines[1..]);
      BlocksCons(lines[0], lines[1..]);
    }
  }

  lemma NoMarkersCons(head: string, tail: seq<string>)
    ensures NoMarkers([head] + tail) <==> !IsMarker(head) && NoMarkers(tail)
    ensures !IsMarker(head) ==> Body([head] + tail) == [head] + Body(tail)
  {
    ConsParts(head, tail);
    if !IsMarker(head) && NoMarkers(tail) {
      var lines := [head] + tail;
      forall k | 1 <= k < |lines| ensures !IsMarker(lines[k]) {
        ConsIndex(head, tail, k - 1);
      }
    }
    if NoMarkers([head] + tail) {
      forall k | 0 <= k < |tail| ensures !IsMarker(tail[k]) {
        ConsIndex(head, tail, k);
      }
    }
  }

  lemma {:induction false} JoinedSnoc(lines: seq<string>, line: string)
    ensures Joined(lines + [line]) == Joined(lines) + "\n" + line
    decreases |lines|
  {
    if lines == [] {
      assert Joined([line]) == "\n" + line + Joined([]);
    } else {
      assert (lines + [line])[1..] == lines[1..] + [line];
      JoinedSnoc(lines[1..], line);
    }
  }

  lemma {:induction false} BodySnoc(lines: seq<string>, line: string)
    ensures Body(lines + [line]) == if NoMarkers(lines) && !IsMarker(line) then lines + [line] else Body(lines)
    decreases |lines|
  {
    if lines == [] {
      assert Body([line]) == if IsMarker(line) then [] else [line] + Body([]);
    } else {
      var head := lines[0];
      var tail := lines[1..];
      HeadTail(lines);
      HeadTailAppend(lines, [line]);
      BodySnoc(tail, line);
      NoMarkersCons(head, tail);
      if !IsMarker(head) && NoMarkers(tail) && !IsMarker(line) {
        ConsAppend(head, tail, [line]);
      }
    }
  }

  /** The scanning loop computes the front-defined blocks: adding a line is one scan step. */
  lemma {:induction false} BlocksSnoc(lines: seq<string>, line: string)
    ensures Blocks(lines + [line]) == ScanStep(Blocks(lines), line)
    decreases |lines|
  {
    if lines == [] {
      assert Blocks([line]) == match MarkerRole(line)
        case Some(r) => [Message(r, Joined(Body([])))] + Blocks([])
        case None => Blocks([]);
    } else {
      var rest := lines[1..];
      var all := lines + [line];
      assert all[1..] == rest + [line] && all[0] == lines[0];
      BlocksSnoc(rest, line);
      match MarkerRole(lines[0])
      case None =>
      case Some(r) =>
        BlocksSnocAfterMarker(r, rest, line);
    }
  }

  /** BlocksSnoc when the first line is a marker: the new line either grows the first block or goes further on. */
  lemma BlocksSnocAfterMarker(r: Role, rest: seq<string>, line: string)
    requires Blocks(rest + [line]) == ScanStep(Blocks(rest), line)
    ensures [Message(r, Joined(Body(rest + [line])))] + Blocks(rest + [line])
            == ScanStep([Message(r, Joined(Body(rest)))] + Blocks(rest), line)
  {
    BodySnoc(rest, line);
    var head := Message(r, Joined(Body(rest)));
    if IsMarker(line) {
      ScanStepCons(head, Blocks(rest), line);
    } else {
      BlocksEmptyIff(rest);
      if NoMarkers(rest) {
        JoinedSnoc(rest, line);
      } else {
        ScanStepCons(head, Blocks(rest), line);
      }
    }
  }

  /** A scan step leaves the first message alone when it opens a new one or grows a later one. */
  lemma ScanStepCons(head: Message, tail: seq<Message>, line: string)
    requires tail != [] || MarkerRole(line).Some?
    ensures ScanStep([head] + tail, line) == [head] + ScanStep(tail, line)
  {
    var all := [head] + tail;
    if MarkerRole(line).None? {
      assert all[..|all| - 1] == [head] + tail[..|tail| - 1];
      assert all[|all| - 1] == tail[|tail| - 1];
    }
  }

  /** The roles of the marker lines, in source order. */
  function MarkerRoles(lines: seq<string>): seq<Role>
    decreases |lines|
  {
    if lines == [] then []
    else match MarkerRole(lines[0])
      case Some(r) => [r] + MarkerRoles(lines[1..])
      case None => MarkerRoles(lines[1..])
  }

  function RolesOf(messages: seq<Message>): (roles: seq<Role>)
    ensures |roles| == |messages| && forall k :: 0 <= k < |messages| ==> roles[k] == messages[k].role
  {
    seq(|messages|, k requires 0 <= k < |messages| => messages[k].role)
  }

  /** One message per marker line, none dropped, in source order and with the marker's role. */
  lemma {:induction false} BlocksFollowMarkers(lines: seq<string>)
    ensures RolesOf(Blocks(lines)) == MarkerRoles(lines)
    decreases |lines|
  {
    if lines != [] {
      BlocksFollowMarkers(lines[1..]);
    }
  }

  /** Lines before the first marker contribute nothing. */
  lemma {:induction false} PreambleIgnored(preamble: seq<string>, lines: seq<string>)
    requires NoMarkers(preamble)
    ensures Blocks(preamble + lines) == Blocks(lines)
    decreases |preamble|
  {
    if preamble != [] {
      assert (preamble + lines)[1..] == preamble[1..] + lines;
      assert NoMarkers(preamble[1..]) by {
        assert forall k :: 0 <= k < |preamble| - 1 ==> preamble[1..][k] == preamble[k + 1];
      }
      assert !IsMarker(preamble[0]);
      PreambleIgnored(preamble[1..], lines);
    } else {
      assert preamble + lines == lines;
    }
  }

  /** The body of a marker is the run of lines up to the next marker, or to the end. */
  lemma {:induction false} BodyIsRun(lines: seq<string>)
    ensures var j := |Body(lines)|;
            j <= |lines| && Body(lines) == lines[..j] && NoMarkers(lines[..j]) && (j == |lines| || IsMarker(lines[j]))
    decreases |lines|
  {
    if lines != [] && !IsMarker(lines[0]) {
      BodyIsRun(lines[1..]);
      var j := |Body(lines[1..])|;
      assert lines[..j + 1] == [lines[0]] + lines[1..][..j];
    }
  }

  /** Finishing one message: strip it, and expand an include into a user message. */
  function Finish(m: Message, pwd: string, host: Host): Result<Message, Error> {
    var content := Strip(m.content);
    if m.role == Include then
      match ExpandInclude(content, pwd, host)
      case Success(expanded) => Success(Message(User, expanded))
      case Failure(e) => Failure(e)
    else Success(Message(m.role, content))
  }

  function Finisher(pwd: string, host: Host): Message -> Result<Message, Error> {
    m => Finish(m, pwd, host)
  }

  /** The whole parse of a chat buffer: scan, then finish every message in order; the first failure propagates. */
  function Parse(chatContent: string, pwd: string, host: Host): Result<seq<Message>, Error> {
    MapAll(Finisher(pwd, host), Blocks(SplitLines(chatContent)))
  }

  /** The scanning loop of parse_chat_messages: a message per marker, other lines grow the last one. */
  method ScanMessages(lines: seq<string>) returns (messages: seq<Message>)
    ensures messages == Blocks(lines)
  {
    messages := [];
    for i := 0 to |lines|
      invariant messages == Blocks(lines[..i])
    {
      BlocksSnoc(lines[..i], lines[i]);
      assert lines[..i + 1] == lines[..i] + [lines[i]];
      var line := lines[i];
      if StartsWith(line, SystemMarker) {
        messages := messages + [Message(System, "")];
        continue;
      }
      if StartsWith(line, UserMarker) {
        messages := messages + [Message(User, "")];
        continue;
      }
      if StartsWith(line, IncludeMarker) {
        messages := messages + [Message(Include, "")];
        continue;
      }
      if StartsWith(line, AssistantMarker) {
        messages := messages + [Message(Assistant, "")];
        continue;
      }
      if messages == [] {
        continue;
      }
      var last := messages[|messages| - 1];
      messages := messages[|messages| - 1 := Message(last.role, last.content + "\n" + line)];
    }
    assert lines[..|lines|] == lines;
  }

  /** The body of the finishing loop for one message: strip it, and expand an include. */
  method FinishMessage(message: Message, pwd: string, host: Host) returns (r: Result<Message, Error>)
    ensures r == Finish(message, pwd, host)
  {
    var content := Strip(message.content);
    if message.role == Include {
      var paths := ExpandIncludePaths(Split(content, '\n'), pwd, host);
      var expanded := ReadIncludedFiles(paths, host);
      if expanded.Failure? {
        return Failure(expanded.error);
      }
      return Success(Message(User, expanded.value));
    }
    return Success(Message(message.role, content));
  }

  /** The finishing loop of parse_chat_messages: each message is rewritten in place. */
  method FinishMessages(scanned: seq<Message>, pwd: string, host: Host) returns (r: Result<seq<Message>, Error>)
    ensures r == MapAll(Finisher(pwd, host), scanned)
  {
    ghost var finish := Finisher(pwd, host);
    var messages := scanned;
    for k := 0 to |messages|
      invariant |messages| == |scanned|
      invariant forall j :: 0 <= j < k ==> finish(scanned[j]) == Success(messages[j])
      invariant forall j :: k <= j < |messages| ==> messages[j] == scanned[j]
    {
      var finished := FinishMessage(messages[k], pwd, host);
      if finished.Failure? {
        MapAllFirstFailure(finish, scanned, k);
        return Failure(finished.error);
      }
      messages := messages[k := finished.value];
    }
    MapAllPointwise(finish, scanned);
    assert MapAll(finish, scanned).value == messages;
    r := Success(messages);
  }

  /** parse_chat_messages: split into lines, scan, finish. */
  method ParseChatMessages(chatContent: string, pwd: string, host: Host) returns (r: Result<seq<Message>, Error>)
    ensures r == Parse(chatContent, pwd, host)
  {
    var lines := SplitLines(chatContent);
    var messages := ScanMessages(lines);
    r := FinishMessages(messages, pwd, host);
  }

  /** The indices of the marker lines, in increasing order. */
  function MarkerPositions(lines: seq<string>): seq<nat>
    decreases |lines|
  {
    if lines == [] then []
    else
      var rest := MarkerPositions(lines[1..]);
      (if IsMarker(lines[0]) then [0] else []) + Shift(rest)
  }

  function Shift(ps: seq<nat>): (r: seq<nat>)
    ensures |r| == |ps| && forall k :: 0 <= k < |ps| ==> r[k] == ps[k] + 1
  {
    seq(|ps|, k requires 0 <= k < |ps| => ps[k] + 1)
  }

  lemma {:induction false} PositionsCount(lines: seq<string>)
    ensures |MarkerPositions(lines)| == |Blocks(lines)|
    decreases |lines|
  {
    if lines != [] {
      PositionsCount(lines[1..]);
    }
  }

  /** Message k comes from the k-th marker line: that line's role, and the lines after it up to the next marker. */
  lemma {:induction false} BlockAtMarker(lines: seq<string>, k: nat)
    requires k < |Blocks(lines)|
    ensures k < |MarkerPositions(lines)| &&
            var p := MarkerPositions(lines)[k];
            p < |lines| && IsMarker(lines[p])
            && Blocks(lines)[k] == Message(MarkerRole(lines[p]).value, Joined(Body(lines[p + 1..])))
    decreases |lines|
  {
    PositionsCount(lines);
    var head := lines[0];
    var tail := lines[1..];
    HeadTail(lines);
    if !IsMarker(head) || k > 0 {
      var j := if IsMarker(head) then k - 1 else k;
      BlockAtMarker(tail, j);
      var q := MarkerPositions(tail)[j];
      BlockAtMarkerCons(head, tail, j);
      ConsIndex(head, tail, q);
    }
  }

  /** A line in front shifts the marker positions by one and adds a block when it is a marker. */
  lemma BlockAtMarkerCons(head: string, tail: seq<string>, j: nat)
    requires j < |Blocks(tail)| && j < |MarkerPositions(tail)|
    ensures var k := if IsMarker(head) then j + 1 else j;
            && k < |Blocks([head] + tail)| && k < |MarkerPositions([head] + tail)|
            && MarkerPositions([head] + tail)[k] == MarkerPositions(tail)[j] + 1
            && Blocks([head] + tail)[k] == Blocks(tail)[j]
  {
    PositionsCons(head, tail);
    BlocksCons(head, tail);
    var front := if IsMarker(head) then [Message(MarkerRole(head).value, Joined(Body(tail)))] else [];
    IndexPastPrefix(if IsMarker(head) then [0] else [], Shift(MarkerPositions(tail)), j);
    IndexPastPrefix(front, Blocks(tail), j);
  }

  lemma PositionsCons(head: string, tail: seq<string>)
    ensures MarkerPositions([head] + tail) == (if IsMarker(head) then [0] else []) + Shift(MarkerPositions(tail))
  {
    ConsParts(head, tail);
  }

  lemma BlocksCons(head: string, tail: seq<string>)
    ensures IsMarker(head) ==> Blocks([head] + tail) == [Message(MarkerRole(head).value, Joined(Body(tail)))] + Blocks(tail)
    ensures !IsMarker(head) ==> Blocks([head] + tail) == Blocks(tail)
  {
    ConsParts(head, tail);
  }

  /** The marker positions increase. */
  lemma {:induction false} PositionsIncrease(lines: seq<string>)
    ensures forall i, j :: 0 <= i < j < |MarkerPositions(lines)| ==> MarkerPositions(lines)[i] < MarkerPositions(lines)[j]
    decreases |lines|
  {
    if lines != [] {
      PositionsIncrease(lines[1..]);
    }
  }

  /** Every marker line has its position among the marker positions. */
  lemma {:induction false} MarkersHavePositions(lines: seq<string>)
    ensures forall i :: 0 <= i < |lines| && IsMarker(lines[i]) ==> i in MarkerPositions(lines)
    decreases |lines|
  {
    if lines != [] {
      var head := lines[0];
      var tail := lines[1..];
      HeadTail(lines);
      MarkersHavePositions(tail);
      PositionsCons(head, tail);
      var rest := MarkerPositions(tail);
      forall i | 1 <= i < |lines| && IsMarker(lines[i])
        ensures i in MarkerPositions(lines)
      {
        ConsIndex(head, tail, i - 1);
        var k :| 0 <= k < |rest| && rest[k] == i - 1;
        assert Shift(rest)[k] == i;
      }
    }
  }

  /** A finished message has its marker's role, with include turned into user. */
  lemma FinishRole(m: Message, pwd: string, host: Host)
    requires Finish(m, pwd, host).Success?
    ensures Finish(m, pwd, host).value.role == if m.role == Include then User else m.role
  {
  }

  /** What the role of a message becomes. */
  function Canonical(r: Role): Role {
    if r == Include then User else r
  }

  /** A successful parse has one message per marker line, in order, each with its marker's role and include turned into user. */
  lemma ParsedRoles(chatContent: string, pwd: string, host: Host)
    requires Parse(chatContent, pwd, host).Success?
    ensures var lines := SplitLines(chatContent);
            var out := Parse(chatContent, pwd, host).value;
            && |out| == |MarkerRoles(lines)|
            && forall k :: 0 <= k < |out| ==> out[k].role == Canonical(MarkerRoles(lines)[k]) && out[k].role != Include
  {
    var lines := SplitLines(chatContent);
    var blocks := Blocks(lines);
    var finish := Finisher(pwd, host);
    MapAllPointwise(finish, blocks);
    BlocksFollowMarkers(lines);
    var out := Parse(chatContent, pwd, host).value;
    forall k | 0 <= k < |out|
      ensures out[k].role == Canonical(MarkerRoles(lines)[k])
    {
      assert Success(out[k]) == finish(blocks[k]);
      FinishRole(blocks[k], pwd, host);
      assert RolesOf(blocks)[k] == blocks[k].role;
    }
  }

  /** Finishing a system, user or assistant message only strips its content. */
  lemma FinishPlain(m: Message, pwd: string, host: Host)
    requires m.role != Include
    ensures Finish(m, pwd, host) == Success(Message(m.role, Strip(m.content)))
  {
  }

  /** A message from a system, user or assistant marker holds the stripped lines between its marker and the next. */
  lemma ParsedContent(chatContent: string, pwd: string, host: Host, k: nat)
    requires Parse(chatContent, pwd, host).Success?
    requires k < |Parse(chatContent, pwd, host).value|
    ensures var lines := SplitLines(chatContent);
            k < |MarkerPositions(lines)| &&
            var p := MarkerPositions(lines)[k];
            p < |lines| && IsMarker(lines[p]) &&
            (MarkerRole(lines[p]) != Some(Include) ==>
              Parse(chatContent, pwd, host).value[k] == Message(MarkerRole(lines[p]).value, Strip(Joined(Body(lines[p + 1..])))))
  {
    FinishedAt(SplitLines(chatContent), pwd, host, k);
  }

  /** The same, for the lines of the buffer. */
  lemma FinishedAt(lines: seq<string>, pwd: string, host: Host, k: nat)
    requires MapAll(Finisher(pwd, host), Blocks(lines)).Success?
    requires k < |MapAll(Finisher(pwd, host), Blocks(lines)).value|
    ensures k < |MarkerPositions(lines)| &&
            var p := MarkerPositions(lines)[k];
            p < |lines| && IsMarker(lines[p]) &&
            (MarkerRole(lines[p]) != Some(Include) ==>
              MapAll(Finisher(pwd, host), Blocks(lines)).value[k] == Message(MarkerRole(lines[p]).value, Strip(Joined(Body(lines[p + 1..])))))
  {
    var blocks := Blocks(lines);
    var finish := Finisher(pwd, host);
    var out := MapAll(finish, blocks).value;
    PositionsCount(lines);
    MapAllAt(finish, blocks, k);
    BlockAtMarker(lines, k);
    var p := MarkerPositions(lines)[k];
    if MarkerRole(lines[p]) != Some(Include) {
      FinishedPlain(blocks[k], out[k], pwd, host);
    }
  }

  lemma FinishedPlain(m: Message, out: Message, pwd: string, host: Host)
    requires m.role != Include && Finisher(pwd, host)(m) == Success(out)
    ensures out == Message(m.role, Strip(m.content))
  {
    FinishPlain(m, pwd, host);
  }

  /** A message from an include marker becomes a user message holding the expansion of its stripped lines. */
  lemma ParsedInclude(chatContent: string, pwd: string, host: Host, k: nat)
    requires Parse(chatContent, pwd, host).Success?
    requires k < |Parse(chatContent, pwd, host).value|
    ensures var lines := SplitLines(chatContent);
            k < |MarkerPositions(lines)| &&
            var p := MarkerPositions(lines)[k];
            p < |lines| && IsMarker(lines[p]) &&
            (MarkerRole(lines[p]) == Some(Include) ==>
              var expanded := ExpandInclude(Strip(Joined(Body(lines[p + 1..]))), pwd, host);
              expanded.Success? && Parse(chatContent, pwd, host).value[k] == Message(User, expanded.value))
  {
    IncludeFinishedAt(SplitLines(chatContent), pwd, host, k);
  }

  /** The same, for the lines of the buffer. */
  lemma IncludeFinishedAt(lines: seq<string>, pwd: string, host: Host, k: nat)
    requires MapAll(Finisher(pwd, host), Blocks(lines)).Success?
    requires k < |MapAll(Finisher(pwd, host), Blocks(lines)).value|
    ensures k < |MarkerPositions(lines)| &&
            var p := MarkerPositions(lines)[k];
            p < |lines| && IsMarker(lines[p]) &&
            (MarkerRole(lines[p]) == Some(Include) ==>
              var expanded := ExpandInclude(Strip(Joined(Body(lines[p + 1..]))), pwd, host);
              expanded.Success? && MapAll(Finisher(pwd, host), Blocks(lines)).value[k] == Message(User, expanded.value))
  {
    var blocks := Blocks(lines);
    var finish := Finisher(pwd, host);
    var out := MapAll(finish, blocks).value;
    PositionsCount(lines);
    MapAllAt(finish, blocks, k);
    BlockAtMarker(lines, k);
    var p := MarkerPositions(lines)[k];
    if MarkerRole(lines[p]) == Some(Include) {
      FinishedInclude(blocks[k], out[k], pwd, host);
    }
  }

  lemma FinishedInclude(m: Message, out: Message, pwd: string, host: Host)
    requires m.role == Include && Finisher(pwd, host)(m) == Success(out)
    ensures ExpandInclude(Strip(m.content), pwd, host).Success?
    ensures out == Message(User, ExpandInclude(Strip(m.content), pwd, host).value)
  {
    assert Finish(m, pwd, host) == Success(out);
  }

  /** The expansion of a scanned message fails: it is an include message whose stripped content cannot be expanded. */
  predicate ExpansionFails(m: Message, pwd: string, host: Host) {
    m.role == Include && ExpandInclude(Strip(m.content), pwd, host).Failure?
  }

  /** The expansion of some message of the list fails. */
  predicate SomeExpansionFails(messages: seq<Message>, pwd: string, host: Host) {
    exists k :: 0 <= k < |messages| && ExpansionFails(messages[k], pwd, host)
  }

  /** The parse fails exactly when the expansion of some include message fails. */
  lemma ParseFailsIff(chatContent: string, pwd: string, host: Host)
    ensures Parse(chatContent, pwd, host).Failure? <==> SomeExpansionFails(Blocks(SplitLines(chatContent)), pwd, host)
  {
    var blocks := Blocks(SplitLines(chatContent));
    assert Parse(chatContent, pwd, host) == MapAll(Finisher(pwd, host), blocks);
    FinishAllFailsIff(blocks, pwd, host);
  }

  /** Finishing a list of messages fails exactly when some message's expansion fails. */
  lemma FinishAllFailsIff(messages: seq<Message>, pwd: string, host: Host)
    ensures MapAll(Finisher(pwd, host), messages).Failure? <==> SomeExpansionFails(messages, pwd, host)
  {
    var finish := Finisher(pwd, host);
    MapAllPointwise(finish, messages);
    forall k | 0 <= k < |messages|
      ensures finish(messages[k]).Failure? <==> ExpansionFails(messages[k], pwd, host)
    {
      FinishFailsIff(messages[k], pwd, host);
    }
  }

  lemma FinishFailsIff(m: Message, pwd: string, host: Host)
    ensures Finisher(pwd, host)(m).Failure? <==> ExpansionFails(m, pwd, host)
  {
    assert Finisher(pwd, host)(m) == Finish(m, pwd, host);
  }

  /** When the first failing expansion is that of message k, the parse fails with its error. */
  lemma ParseFirstFailure(chatContent: string, pwd: string, host: Host, k: nat)
    requires var blocks := Blocks(SplitLines(chatContent));
             && k < |blocks| && ExpansionFails(blocks[k], pwd, host)
             && forall j :: 0 <= j < k ==> !ExpansionFails(blocks[j], pwd, host)
    ensures var m := Blocks(SplitLines(chatContent))[k];
            Parse(chatContent, pwd, host) == Failure(ExpandInclude(Strip(m.content), pwd, host).error)
  {
    var blocks := Blocks(SplitLines(chatContent));
    var finish := Finisher(pwd, host);
    forall j | 0 <= j < k
      ensures finish(blocks[j]).Success?
    {
      assert !ExpansionFails(blocks[j], pwd, host);
    }
    MapAllFirstFailure(finish, blocks, k);
  }

  /** A transcript without include markers always parses. */
  lemma NoIncludeNeverFails(chatContent: string, pwd: string, host: Host)
    requires Include !in MarkerRoles(SplitLines(chatContent))
    ensures Parse(chatContent, pwd, host).Success?
  {
    var lines := SplitLines(chatContent);
    var blocks := Blocks(lines);
    BlocksFollowMarkers(lines);
    MapAllPointwise(Finisher(pwd, host), blocks);
    forall k | 0 <= k < |blocks| ensures Finish(blocks[k], pwd, host).Success? {
      assert RolesOf(blocks)[k] == blocks[k].role;
    }
  }

  /** A non-empty string that starts and ends with a non-space character: one that strip leaves alone. */
  predicate Trimmed(s: string) {
    s != [] && !IsSpace(s[0]) && !IsSpace(s[|s| - 1])
  }

  /** The two-turn transcript below splits into its five lines. */
  lemma TwoTurnLines(question: string, answer: string, chatContent: string)
    requires '\n' !in question && '\n' !in answer && answer != []
    requires chatContent == UserMarker + "\n" + question + "\n\n" + AssistantMarker + "\n" + answer
    ensures SplitLines(chatContent) == [UserMarker, question, "", AssistantMarker, answer]
  {
    TwoTurnSplit(question, answer, chatContent);
    assert chatContent[|chatContent| - 1] == answer[|answer| - 1] != '\n';
  }

  /** The two-turn buffer splits into its five lines. */
  lemma TwoTurnSplit(question: string, answer: string, chatContent: string)
    requires '\n' !in question && '\n' !in answer
    requires chatContent == UserMarker + "\n" + question + "\n\n" + AssistantMarker + "\n" + answer
    ensures Split(chatContent, '\n') == [UserMarker, question, "", AssistantMarker, answer]
  {
    MarkersOnOneLine();
    var parts := [UserMarker, question, "", AssistantMarker, answer];
    JoinFive(UserMarker, question, "", AssistantMarker, answer, '\n');
    assert "\n\n" == ['\n'] + "" + ['\n'];
    assert chatContent == Join(parts, '\n');
    assert forall k :: 0 <= k < |parts| ==> '\n' !in parts[k];
    SplitJoin(parts, '\n');
  }

  lemma MarkersOnOneLine()
    ensures '\n' !in UserMarker && '\n' !in AssistantMarker
  {
  }

  /** The scan of those five lines: a user block holding the question and the blank line, an assistant block holding the answer. */
  lemma TwoTurnBlocks(question: string, answer: string, lines: seq<string>)
    requires !IsMarker(question) && !IsMarker(answer)
    requires lines == [UserMarker, question, "", AssistantMarker, answer]
    ensures Blocks(lines) == [Message(User, "\n" + question + "\n"), Message(Assistant, "\n" + answer)]
  {
    assert MarkerRole(UserMarker) == Some(User) by { MarkerRoleIffPrefix(UserMarker, User); }
    assert MarkerRole(AssistantMarker) == Some(Assistant) by { MarkerRoleIffPrefix(AssistantMarker, Assistant); }
    assert !IsMarker("");
    assert lines[4..][1..] == lines[5..] == [];
    assert Body(lines[4..]) == [answer];
    assert Blocks(lines[4..]) == [];
    assert lines[3..][1..] == lines[4..];
    assert Blocks(lines[3..]) == [Message(Assistant, Joined([answer]))];
    assert Blocks(lines[1..]) == Blocks(lines[3..]);
    assert lines[1..][1..] == lines[2..] && lines[2..][1..] == lines[3..];
    assert Body(lines[3..]) == [];
    assert Body(lines[2..]) == [""];
    assert Body(lines[1..]) == [question, ""];
    assert Joined([question, ""]) == "\n" + question + "\n";
    assert Joined([answer]) == "\n" + answer;
  }

  /**
   * A user question, a blank line and an assistant answer (each a single line
   * with no surrounding whitespace) parse to exactly those two messages.
   */
  lemma TwoTurnExample(question: string, answer: string, chatContent: string, pwd: string, host: Host)
    requires '\n' !in question && '\n' !in answer && !IsMarker(question) && !IsMarker(answer)
    requires Trimmed(question) && Trimmed(answer)
    requires chatContent == UserMarker + "\n" + question + "\n\n" + AssistantMarker + "\n" + answer
    ensures Parse(chatContent, pwd, host) == Success([Message(User, question), Message(Assistant, answer)])
  {
    var lines := [UserMarker, question, "", AssistantMarker, answer];
    TwoTurnLines(question, answer, chatContent);
    TwoTurnBlocks(question, answer, lines);
    StripAround("\n", question, "\n");
    StripAround("\n", answer, "");
    assert "\n" + answer + "" == "\n" + answer;
    var finish := Finisher(pwd, host);
    var blocks := Blocks(lines);
    assert Parse(chatContent, pwd, host) == MapAll(finish, blocks);
    FinishPlain(blocks[0], pwd, host);
    FinishPlain(blocks[1], pwd, host);
    assert finish(blocks[0]) == Success(Message(User, question));
    assert finish(blocks[1]) == Success(Message(Assistant, answer));
    MapAllPair(finish, blocks[0], blocks[1]);
    assert blocks == [blocks[0], blocks[1]];
  }
}
