/**
 * The two decisions initialize_chat_window makes about the chat buffer:
 * whether to put a `>>> user` line at the top (no line equals it exactly),
 * and whether to open a fresh user block at the end (the last role line of
 * the trimmed buffer text is not a user line). Role lines are found with a
 * multi-line regular expression that knows the system, user and assistant
 * markers only, so include markers never count.
 */
module ChatWindow {
  import opened Wrappers
  import opened Text
  import opened Errors
  import opened Transcript

  /** `'>>> user' in lines`: the buffer already holds a user line, exactly. */
  predicate PrependsUserMarker(lines: seq<string>) {
    UserMarker !in lines
  }

  /**
   * The buffer after the top-of-file step: `normal! gg`, then `normal! O`
   * opens an empty line above the first one and `normal! i>>> user\n` types
   * the marker into it, leaving the empty line below.
   */
  function Prepared(lines: seq<string>): seq<string> {
    if PrependsUserMarker(lines) then [UserMarker, ""] + lines else lines
  }

  /** `trim(join(getline(1, "$"), "\n"))`: the buffer text with the surrounding whitespace removed. */
  function FileContent(lines: seq<string>): string {
    Strip(Join(lines, '\n'))
  }

  /** The group the pattern `(^>>> user|^>>> system|^<<< assistant).*` captures on a line, if it matches. */
  function RoleMatch(line: string): Option<string> {
    if StartsWith(line, UserMarker) then Some(UserMarker)
    else if StartsWith(line, SystemMarker) then Some(SystemMarker)
    else if StartsWith(line, AssistantMarker) then Some(AssistantMarker)
    else None
  }

  /** `re.findall(..., flags=re.MULTILINE)` over the lines: the captured groups in order. */
  function RoleLines(lines: seq<string>): seq<string>
    decreases |lines|
  {
    if lines == [] then []
    else
      var last := RoleMatch(lines[|lines| - 1]);
      RoleLines(lines[..|lines| - 1]) + (if last.Some? then [last.value] else [])
  }

  /**
   * `not role_lines[-1].startswith(">>> user")` on the buffer text:
   * IndexError when no line is a role line.
   */
  function AppendsUserBlock(fileContent: string): Result<bool, Error> {
    LastRoleDecision(Split(fileContent, '\n'))
  }

  /** The decision on the lines of the buffer text. */
  function LastRoleDecision(lines: seq<string>): Result<bool, Error> {
    var roles := RoleLines(lines);
    if roles == [] then Failure(IndexError)
    else Success(!StartsWith(roles[|roles| - 1], UserMarker))
  }

  /** The last line of `lines` that is a role line sits at index k. */
  predicate LastRoleLineAt(lines: seq<string>, k: nat) {
    k < |lines| && RoleMatch(lines[k]).Some?
    && forall j :: k < j < |lines| ==> RoleMatch(lines[j]).None?
  }

  /** No role line means no matches. */
  lemma {:induction false} NoMatchesIff(lines: seq<string>)
    ensures RoleLines(lines) == [] <==> forall k :: 0 <= k < |lines| ==> RoleMatch(lines[k]).None?
    decreases |lines|
  {
    if lines != [] {
      var init := lines[..|lines| - 1];
      NoMatchesIff(init);
      assert forall k :: 0 <= k < |lines| - 1 ==> lines[k] == init[k];
    }
  }

  /** When there are matches, the last one is the group of the last role line. */
  lemma {:induction false} LastRoleDecides(lines: seq<string>)
    ensures RoleLines(lines) != [] ==>
              exists k: nat :: LastRoleLineAt(lines, k) && RoleLines(lines)[|RoleLines(lines)| - 1] == RoleMatch(lines[k]).value
    decreases |lines|
  {
    if lines != [] {
      var init := lines[..|lines| - 1];
      var n := |lines| - 1;
      LastRoleDecides(init);
      assert forall k :: 0 <= k < n ==> lines[k] == init[k];
      if RoleMatch(lines[n]).Some? {
        assert LastRoleLineAt(lines, n);
      } else if RoleLines(init) != [] {
        var k: nat :| LastRoleLineAt(init, k) && RoleLines(init)[|RoleLines(init)| - 1] == RoleMatch(init[k]).value;
        assert LastRoleLineAt(lines, k);
      }
    }
  }

  /** The last match is a user marker exactly when the last role line starts with one. */
  lemma LastMatchIsLastLine(lines: seq<string>, k: nat)
    requires LastRoleLineAt(lines, k)
    ensures RoleLines(lines) != []
    ensures StartsWith(RoleLines(lines)[|RoleLines(lines)| - 1], UserMarker) <==> StartsWith(lines[k], UserMarker)
  {
    LastRoleDecides(lines);
    var j: nat :| LastRoleLineAt(lines, j) && RoleLines(lines)[|RoleLines(lines)| - 1] == RoleMatch(lines[j]).value;
    assert j == k;
    GroupIsUserIff(lines[k]);
  }

  /** The captured group is the user marker exactly when the line starts with it. */
  lemma GroupIsUserIff(line: string)
    requires RoleMatch(line).Some?
    ensures StartsWith(RoleMatch(line).value, UserMarker) <==> StartsWith(line, UserMarker)
  {
    var m := RoleMatch(line).value;
    if !StartsWith(line, UserMarker) {
      assert !StartsWith(m, UserMarker) by {
        if m == SystemMarker { assert m[4] != UserMarker[4]; }
        else { assert m == AssistantMarker; assert m[0] != UserMarker[0]; }
      }
    }
  }

  /**
   * The append decision in terms of the buffer text's lines: it fails exactly
   * when there is no role line, and appends exactly when the last role line
   * is not a user line.
   */
  lemma AppendsIffLastRoleNotUser(fileContent: string)
    ensures var lines := Split(fileContent, '\n');
            AppendsUserBlock(fileContent).Failure? <==> forall k :: 0 <= k < |lines| ==> RoleMatch(lines[k]).None?
    ensures var lines := Split(fileContent, '\n');
            forall k: nat :: LastRoleLineAt(lines, k) ==>
              AppendsUserBlock(fileContent) == Success(!StartsWith(lines[k], UserMarker))
  {
    MatchesDecide(Split(fileContent, '\n'));
  }

  /** The append decision on any list of lines, before they are tied to the buffer text. */
  lemma MatchesDecide(lines: seq<string>)
    ensures LastRoleDecision(lines).Failure? <==> forall k :: 0 <= k < |lines| ==> RoleMatch(lines[k]).None?
    ensures forall k: nat :: LastRoleLineAt(lines, k) ==> LastRoleDecision(lines) == Success(!StartsWith(lines[k], UserMarker))
  {
    NoMatchesIff(lines);
    forall k: nat | LastRoleLineAt(lines, k)
      ensures LastRoleDecision(lines) == Success(!StartsWith(lines[k], UserMarker))
    {
      LastMatchIsLastLine(lines, k);
    }
  }

  /** An include marker line is not a role line: appending one leaves the matches as they were. */
  lemma IncludeLinesDoNotCount(lines: seq<string>, line: string)
    requires StartsWith(line, IncludeMarker)
    ensures RoleLines(lines + [line]) == RoleLines(lines)
  {
    assert line[4] == IncludeMarker[4] == 'i';
    assert !StartsWith(line, UserMarker) by { assert UserMarker[4] == 'u'; }
    assert !StartsWith(line, SystemMarker) by { assert SystemMarker[4] == 's'; }
    assert !StartsWith(line, AssistantMarker) by { assert line[0] == '>' && AssistantMarker[0] == '<'; }
    assert (lines + [line])[..|lines|] == lines;
  }

  /** After the top-of-file step the buffer always holds a `>>> user` line. */
  lemma PreparedHasUserLine(lines: seq<string>)
    ensures UserMarker in Prepared(lines)
    ensures !PrependsUserMarker(lines) ==> Prepared(lines) == lines
  {
    if PrependsUserMarker(lines) {
      assert Prepared(lines)[0] == UserMarker;
    }
  }

  /** `text` is `pre + w + post`, with `w` at the start of the text or right after a separator. */
  predicate AtLineStart(text: string, pre: string, w: string, post: string, sep: char) {
    text == pre + w + post && (pre == [] || pre[|pre| - 1] == sep)
  }

  /** A part of a list sits in its joined text between separators (or at an end). */
  lemma {:induction false} JoinAround(parts: seq<string>, p: nat, sep: char)
    requires p < |parts|
    ensures exists pre: string, post: string :: AtLineStart(Join(parts, sep), pre, parts[p], post, sep)
    decreases |parts|
  {
    if p == 0 {
      if |parts| == 1 {
        assert AtLineStart(Join(parts, sep), [], parts[0], [], sep);
      } else {
        assert AtLineStart(Join(parts, sep), [], parts[0], [sep] + Join(parts[1..], sep), sep);
      }
    } else {
      JoinAround(parts[1..], p - 1, sep);
      var pre: string, post: string :| AtLineStart(Join(parts[1..], sep), pre, parts[1..][p - 1], post, sep);
      JoinAroundStep(parts, p, sep, pre, post);
      assert AtLineStart(Join(parts, sep), parts[0] + [sep] + pre, parts[p], post, sep);
    }
  }

  lemma JoinAroundStep(parts: seq<string>, p: nat, sep: char, pre: string, post: string)
    requires 0 < p < |parts| && AtLineStart(Join(parts[1..], sep), pre, parts[p], post, sep)
    ensures AtLineStart(Join(parts, sep), parts[0] + [sep] + pre, parts[p], post, sep)
  {
    var head := parts[0] + [sep];
    assert Join(parts, sep) == head + Join(parts[1..], sep);
    Regroup(head, pre, parts[p], post);
    var pre' := head + pre;
    assert pre' != [] && pre'[|pre'| - 1] == sep;
  }

  // Regroup, MiddleEnds and SliceAcross have empty bodies: the verifier proves
  // each on its own, and stating them apart keeps their instances out of the
  // search in the string-heavy proofs that call them.

  /** A concatenation of four parts regrouped around its middle. */
  lemma Regroup<T>(x: seq<T>, a: seq<T>, b: seq<T>, c: seq<T>)
    ensures x + (a + b + c) == (x + a) + b + c
  {
  }

  /** Stripping text around a word that starts and ends with non-space keeps the word and whatever stood just before it. */
  lemma StripKeepsWord(pre: string, w: string, post: string)
    requires w != [] && !IsSpace(w[0]) && !IsSpace(w[|w| - 1])
    ensures exists i: nat, q: string :: i <= |pre| && Strip(pre + w + post) == pre[i..] + w + q
  {
    var s := pre + w + post;
    MiddleEnds(pre, w, post);
    StripCovers(s, |pre|, |pre| + |w|);
    StripIsSlice(s);
    var i := StripStart(s);
    var j := i + |Strip(s)|;
    SliceAcross(pre, w, post, i, j, Strip(s));
  }

  /** The ends of the middle part, found in the whole. */
  lemma MiddleEnds<T>(a: seq<T>, b: seq<T>, c: seq<T>)
    requires b != []
    ensures (a + b + c)[|a|] == b[0] && (a + b + c)[|a| + |b| - 1] == b[|b| - 1]
  {
  }

  /** A slice that starts in the first part and ends in the last one contains the middle part whole. */
  lemma SliceAcross<T>(a: seq<T>, b: seq<T>, c: seq<T>, i: nat, j: nat, r: seq<T>)
    requires i <= |a| && |a| + |b| <= j <= |a| + |b| + |c| && r == (a + b + c)[i..j]
    ensures r == a[i..] + b + c[..j - |a| - |b|]
  {
  }

  /** Text that has the word at its start or right after a newline has a line that starts with the word. */
  lemma LineStartingWith(x: string, w: string, q: string)
    requires x == [] || x[|x| - 1] == '\n'
    requires '\n' !in w
    ensures exists k :: 0 <= k < |Split(x + w + q, '\n')| && StartsWith(Split(x + w + q, '\n')[k], w)
  {
    var tail := w + q;
    SplitFirstPart(tail, '\n');
    var first := Split(tail, '\n')[0];
    assert StartsWith(first, w) by {
      assert |first| >= |w|;
      assert tail[..|first|] == first;
      assert first[..|w|] == tail[..|w|];
    }
    if x == [] {
      assert x + w + q == tail;
    } else {
      var x' := x[..|x| - 1];
      assert x + w + q == x' + ['\n'] + tail;
      SplitConcat(x', '\n', tail);
      assert Split(x + w + q, '\n')[|Split(x', '\n')|] == first;
    }
  }

  /** Trimmed buffer text keeps a line that starts with `>>> user` when the buffer has a `>>> user` line. */
  lemma UserLineSurvivesStrip(buffer: seq<string>)
    requires UserMarker in buffer
    ensures var split := Split(Strip(Join(buffer, '\n')), '\n');
            exists k :: 0 <= k < |split| && StartsWith(split[k], UserMarker)
  {
    var p :| 0 <= p < |buffer| && buffer[p] == UserMarker;
    JoinAround(buffer, p, '\n');
    var pre: string, post: string :| AtLineStart(Join(buffer, '\n'), pre, UserMarker, post, '\n');
    UserLineInText(pre, post);
  }

  /** The same for text in which `>>> user` stands at the start or right after a newline. */
  lemma UserLineInText(pre: string, post: string)
    requires pre == [] || pre[|pre| - 1] == '\n'
    ensures var split := Split(Strip(pre + UserMarker + post), '\n');
            exists k :: 0 <= k < |split| && StartsWith(split[k], UserMarker)
  {
    UserMarkerShape();
    StripKeepsWord(pre, UserMarker, post);
    var i: nat, q: string :| i <= |pre| && Strip(pre + UserMarker + post) == pre[i..] + UserMarker + q;
    SuffixEndsLine(pre, i);
    LineStartingWith(pre[i..], UserMarker, q);
  }

  lemma UserMarkerShape()
    ensures UserMarker != [] && !IsSpace(UserMarker[0]) && !IsSpace(UserMarker[|UserMarker| - 1])
    ensures '\n' !in UserMarker
  {
  }

  /** A suffix of text that is empty or ends with a newline is empty or ends with a newline. */
  lemma SuffixEndsLine(pre: string, i: nat)
    requires i <= |pre| && (pre == [] || pre[|pre| - 1] == '\n')
    ensures pre[i..] == [] || pre[i..][|pre[i..]| - 1] == '\n'
  {
  }

  /** A line that starts with `>>> user` is a role line, so there is a last match. */
  lemma UserLineIsRoleLine(split: seq<string>, k: nat)
    requires k < |split| && StartsWith(split[k], UserMarker)
    ensures RoleLines(split) != []
  {
    NoMatchesIff(split);
    assert RoleMatch(split[k]).Some?;
  }

  /**
   * The append decision never raises: after the top-of-file step the
   * trimmed buffer text always has a line that starts with `>>> user`.
   */
  lemma AppendDecisionNeverFails(lines: seq<string>)
    ensures AppendsUserBlock(FileContent(Prepared(lines))).Success?
  {
    var buffer := Prepared(lines);
    PreparedHasUserLine(lines);
    UserLineSurvivesStrip(buffer);
    var split := Split(FileContent(buffer), '\n');
    var k :| 0 <= k < |split| && StartsWith(split[k], UserMarker);
    UserLineIsRoleLine(split, k);
  }
}
