/**
 * render_text_chunks and need_insert_before_cursor: a completion arrives as a
 * stream of text chunks, and each chunk is typed into the editor buffer.
 * Blank chunks are skipped until the first chunk with visible text; from then
 * on every chunk is typed. The first typed chunk goes before the cursor when
 * the visual selection started in the first column, every other chunk after it.
 */
module Render {
  import opened Wrappers
  import opened Text
  import opened Errors

  /** The Python values that `is_selection` can hold. */
  datatype PyValue = PyNone | PyBool(b: bool) | PyInt(i: int) | PyStr(s: string)

  /** Python's `v == False`: true for False and for the integer 0 only. */
  predicate EqualsFalse(v: PyValue) {
    v == PyBool(false) || v == PyInt(0)
  }

  const GetposMessage := "Unexpected getpos value, it should be a list with two elements"

  /**
   * Whether the first typed chunk goes before the cursor. `pos` is the
   * editor's answer for `getpos("'<")[1:2]`: Some(items) when it is a list,
   * None otherwise. The editor is asked only when `is_selection == False`.
   */
  function NeedInsertBeforeCursor(isSelection: PyValue, pos: Option<seq<string>>): (r: Result<bool, Error>)
    ensures !EqualsFalse(isSelection) ==> r == Success(false)
    ensures r.Failure? <==> EqualsFalse(isSelection) && (pos.None? || |pos.value| != 2)
    ensures r.Failure? ==> r.error == ValueError(GetposMessage)
    ensures r == Success(true) <==> EqualsFalse(isSelection) && pos.Some? && |pos.value| == 2 && pos.value[1] == "1"
  {
    if !EqualsFalse(isSelection) then Success(false)
    else if pos.None? || |pos.value| != 2 then Failure(ValueError(GetposMessage))
    else Success(pos.value[1] == "1")
  }

  /** The editor commands the renderer issues. */
  datatype Command =
    | Insert(text: string)   // `normal! i` followed by the text
    | Append(text: string)   // `normal! a` followed by the text
    | UndoJoin
    | Redraw
    | Info(message: string)  // print_info_message

  const EmptyResponseMessage := "Empty response received. Tip: You can try modifying the prompt and retry."

  /** The chunks that get typed: everything from the first non-blank chunk on. */
  function DropLeadingBlank(chunks: seq<string>): seq<string>
    decreases |chunks|
  {
    if chunks == [] || !IsBlank(chunks[0]) then chunks else DropLeadingBlank(chunks[1..])
  }

  /** The commands for one typed chunk. */
  function ChunkCommands(text: string, before: bool): seq<Command> {
    [if before then Insert(text) else Append(text), UndoJoin, Redraw]
  }

  /** The commands for typing `typed` in order, the first one before the cursor when `insertBefore`. */
  function Typing(typed: seq<string>, insertBefore: bool): seq<Command>
    decreases |typed|
  {
    if typed == [] then []
    else Typing(typed[..|typed| - 1], insertBefore) + ChunkCommands(typed[|typed| - 1], insertBefore && |typed| == 1)
  }

  /** The notice shown after the loop when nothing visible was received. */
  function EmptyNotice(fullText: string): seq<Command> {
    if IsBlank(fullText) then [Info(EmptyResponseMessage)] else []
  }

  /** The text a command types: that of an Insert or an Append, nothing otherwise. */
  function CommandText(c: Command): string {
    if c.Insert? || c.Append? then c.text else ""
  }

  /** The texts of the Insert and Append commands, concatenated in order. */
  function TypedText(log: seq<Command>): string
    decreases |log|
  {
    if log == [] then "" else TypedText(log[..|log| - 1]) + CommandText(log[|log| - 1])
  }

  lemma DropLeadingBlankSnoc(xs: seq<string>, x: string)
    ensures DropLeadingBlank(xs + [x]) ==
            if DropLeadingBlank(xs) == [] && IsBlank(x) then [] else DropLeadingBlank(xs) + [x]
    decreases |xs|
  {
    if xs == [] {
      assert [] + [x] == [x];
      assert [x][1..] == [];
    } else {
      assert (xs + [x])[1..] == xs[1..] + [x];
      DropLeadingBlankSnoc(xs[1..], x);
    }
  }

  lemma TypingSnoc(typed: seq<string>, x: string, insertBefore: bool)
    ensures Typing(typed + [x], insertBefore) == Typing(typed, insertBefore) + ChunkCommands(x, insertBefore && typed == [])
  {
    assert (typed + [x])[..|typed|] == typed;
  }

  // AppendAssoc and FourAsCons, like the generic sequence lemmas of Text,
  // have empty bodies; they give callers an instance the verifier would
  // otherwise search for in a context full of facts about strings.

  /** Concatenation regrouped. */
  lemma AppendAssoc<T>(a: seq<T>, b: seq<T>, c: seq<T>)
    ensures a + b + c == a + (b + c)
  {
  }

  class Editor {
    /** Every command sent to the editor, oldest first. */
    var log: seq<Command>

    constructor ()
      ensures log == []
    {
      log := [];
    }

    /**
     * Types the chunks into the buffer and returns the accumulated full text.
     * When the editor's answer about the selection is malformed nothing is
     * typed and the ValueError propagates.
     */
    method RenderTextChunks(chunks: seq<string>, isSelection: PyValue, pos: Option<seq<string>>) returns (r: Result<string, Error>)
      modifies this
      ensures var need := NeedInsertBeforeCursor(isSelection, pos);
              need.Failure? ==> r == Failure(need.error) && log == old(log)
      ensures var need := NeedInsertBeforeCursor(isSelection, pos);
              need.Success? ==>
                && r == Success(Concat(DropLeadingBlank(chunks)))
                && log == old(log) + Typing(DropLeadingBlank(chunks), need.value) + EmptyNotice(r.value)
    {
      var need := NeedInsertBeforeCursor(isSelection, pos);
      if need.Failure? {
        return Failure(need.error);
      }
      var generatingText := false;
      var fullText := "";
      var insertBeforeCursor := need.value;
      assert chunks[..0] == [];
      for i := 0 to |chunks|
        invariant Rendering(chunks, i, need.value, generatingText, insertBeforeCursor, fullText, old(log), log)
      {
        var text := chunks[i];
        RenderingStep(chunks, i, need.value, generatingText, insertBeforeCursor, fullText, old(log), log);
        if IsBlank(text) && !generatingText {
          continue;
        }
        generatingText := true;
        var command;
        if insertBeforeCursor {
          command := Insert(text);
          insertBeforeCursor := false;
        } else {
          command := Append(text);
        }
        log := log + [command, UndoJoin, Redraw];
        fullText := fullText + text;
      }
      RenderingDone(chunks, need.value, generatingText, insertBeforeCursor, fullText, old(log), log);
      if IsBlank(fullText) {
        log := log + [Info(EmptyResponseMessage)];
      }
      return Success(fullText);
    }
  }

  /**
   * The rendering loop's state after the first i chunks: typing has started
   * once a visible chunk was seen, the next typed chunk goes before the
   * cursor only while nothing was typed, and the full text and the commands
   * are those of the chunks typed so far.
   */
  predicate Rendering(chunks: seq<string>, i: nat, insertBefore: bool, generating: bool, insertNow: bool,
                      fullText: string, log0: seq<Command>, log: seq<Command>)
  {
    i <= |chunks| &&
    var typed := DropLeadingBlank(chunks[..i]);
    && (generating <==> typed != [])
    && (insertNow <==> insertBefore && typed == [])
    && fullText == Concat(typed)
    && log == log0 + Typing(typed, insertBefore)
  }

  /** After the last chunk, the loop has typed every chunk from the first visible one on. */
  lemma RenderingDone(chunks: seq<string>, insertBefore: bool, generating: bool, insertNow: bool,
                      fullText: string, log0: seq<Command>, log: seq<Command>)
    requires Rendering(chunks, |chunks|, insertBefore, generating, insertNow, fullText, log0, log)
    ensures fullText == Concat(DropLeadingBlank(chunks))
    ensures log == log0 + Typing(DropLeadingBlank(chunks), insertBefore)
  {
    assert chunks[..|chunks|] == chunks;
  }

  /** One iteration of the rendering loop keeps its state description. */
  lemma RenderingStep(chunks: seq<string>, i: nat, insertBefore: bool, generating: bool, insertNow: bool,
                      fullText: string, log0: seq<Command>, log: seq<Command>)
    requires i < |chunks| && Rendering(chunks, i, insertBefore, generating, insertNow, fullText, log0, log)
    ensures IsBlank(chunks[i]) && !generating ==>
              Rendering(chunks, i + 1, insertBefore, generating, insertNow, fullText, log0, log)
    ensures !(IsBlank(chunks[i]) && !generating) ==>
              var command := if insertNow then Insert(chunks[i]) else Append(chunks[i]);
              Rendering(chunks, i + 1, insertBefore, true, false, fullText + chunks[i], log0, log + [command, UndoJoin, Redraw])
  {
    var typed := DropLeadingBlank(chunks[..i]);
    ChunkStep(chunks, i, insertBefore);
    if !(IsBlank(chunks[i]) && !generating) {
      var command := if insertNow then Insert(chunks[i]) else Append(chunks[i]);
      assert [command, UndoJoin, Redraw] == ChunkCommands(chunks[i], insertBefore && typed == []);
      AppendAssoc(log0, Typing(typed, insertBefore), ChunkCommands(chunks[i], insertBefore && typed == []));
    }
  }

  /**
   * One iteration of the rendering loop: a blank chunk before any visible
   * text is skipped, any other chunk is typed after the earlier ones.
   */
  lemma ChunkStep(chunks: seq<string>, i: nat, insertBefore: bool)
    requires i < |chunks|
    ensures var typed := DropLeadingBlank(chunks[..i]);
            var next := DropLeadingBlank(chunks[..i + 1]);
            if IsBlank(chunks[i]) && typed == [] then next == []
            else
              && next == typed + [chunks[i]]
              && Typing(next, insertBefore) == Typing(typed, insertBefore) + ChunkCommands(chunks[i], insertBefore && typed == [])
              && Concat(next) == Concat(typed) + chunks[i]
  {
    var typed := DropLeadingBlank(chunks[..i]);
    TakeSnoc(chunks, i);
    DropLeadingBlankSnoc(chunks[..i], chunks[i]);
    TypingSnoc(typed, chunks[i], insertBefore);
    ConcatSnoc(typed, chunks[i]);
  }

  /** The first n chunks are blank, chunk n (if any) is not, and typing starts at chunk n. */
  predicate SkipsTo(chunks: seq<string>, n: nat) {
    && n <= |chunks|
    && DropLeadingBlank(chunks) == chunks[n..]
    && (forall k :: 0 <= k < n ==> IsBlank(chunks[k]))
    && (n < |chunks| ==> !IsBlank(chunks[n]))
  }

  /**
   * The typed chunks are the input after its longest all-blank prefix: the
   * skipped chunks are blank and the first typed chunk is not.
   */
  lemma {:induction false} SkipsBlankPrefix(chunks: seq<string>)
    ensures exists n: nat :: SkipsTo(chunks, n)
    decreases |chunks|
  {
    if chunks == [] || !IsBlank(chunks[0]) {
      assert DropLeadingBlank(chunks) == chunks[0..];
      assert SkipsTo(chunks, 0);
    } else {
      SkipsBlankPrefix(chunks[1..]);
      var m: nat :| SkipsTo(chunks[1..], m);
      SkipsOneMore(chunks[0], chunks[1..], m);
      assert chunks == [chunks[0]] + chunks[1..];
    }
  }

  /** A blank chunk in front of chunks that skip to m skips to m + 1. */
  lemma SkipsOneMore(head: string, tail: seq<string>, m: nat)
    requires IsBlank(head) && SkipsTo(tail, m)
    ensures SkipsTo([head] + tail, m + 1)
  {
    var chunks := [head] + tail;
    DropLeadingBlankStep(chunks);
    assert chunks[1..] == tail;
    assert tail[m..] == chunks[m + 1..];
    forall k | 0 <= k < m + 1
      ensures IsBlank(chunks[k])
    {
      if k > 0 {
        assert chunks[k] == tail[k - 1];
      }
    }
  }

  /** One step of skipping: a blank head is dropped, a non-blank one starts the typed chunks. */
  lemma DropLeadingBlankStep(zs: seq<string>)
    requires zs != []
    ensures DropLeadingBlank(zs) == if IsBlank(zs[0]) then DropLeadingBlank(zs[1..]) else zs
  {
  }

  /** A blank chunk in front is skipped. */
  lemma SkipsBlank(x: string, xs: seq<string>)
    requires IsBlank(x)
    ensures DropLeadingBlank([x] + xs) == DropLeadingBlank(xs)
  {
    assert ([x] + xs)[1..] == xs;
  }

  /** Once a non-blank chunk has been typed, every later chunk is typed too, blank or not. */
  lemma {:induction false} KeepsTypingAfterStart(xs: seq<string>, ys: seq<string>)
    requires DropLeadingBlank(xs) != []
    ensures DropLeadingBlank(xs + ys) == DropLeadingBlank(xs) + ys
    decreases |xs|
  {
    assert xs != [];
    var zs := xs + ys;
    assert zs[0] == xs[0] && zs[1..] == xs[1..] + ys;
    DropLeadingBlankStep(xs);
    DropLeadingBlankStep(zs);
    if IsBlank(xs[0]) {
      KeepsTypingAfterStart(xs[1..], ys);
    }
  }

  /** Typing issues three commands per chunk, at most one Insert, and only for the first chunk. */
  lemma {:induction false} AtMostOneInsert(typed: seq<string>, insertBefore: bool)
    ensures |Typing(typed, insertBefore)| == 3 * |typed|
    ensures forall k :: 0 <= k < |Typing(typed, insertBefore)| && Typing(typed, insertBefore)[k].Insert? ==> k == 0 && insertBefore
    ensures insertBefore && typed != [] ==> Typing(typed, insertBefore)[0] == Insert(typed[0])
    decreases |typed|
  {
    if typed != [] {
      var init := typed[..|typed| - 1];
      AtMostOneInsert(init, insertBefore);
      if init != [] {
        assert typed[0] == init[0];
      }
    }
  }

  /** What reaches the buffer is exactly the typed chunks, in order. */
  lemma {:induction false} TypingTypesText(typed: seq<string>, insertBefore: bool)
    ensures TypedText(Typing(typed, insertBefore)) == Concat(typed)
    decreases |typed|
  {
    if typed != [] {
      var init := typed[..|typed| - 1];
      var x := typed[|typed| - 1];
      TypingTypesText(init, insertBefore);
      var a := Typing(init, insertBefore);
      var c := ChunkCommands(x, insertBefore && |typed| == 1);
      TypedTextAppend(a, c);
      ChunkTypesItsText(x, insertBefore && |typed| == 1);
    }
  }

  /** The commands for one chunk type that chunk's text and nothing else. */
  lemma ChunkTypesItsText(x: string, before: bool)
    ensures TypedText(ChunkCommands(x, before)) == x
  {
    var c := ChunkCommands(x, before);
    assert c[..2][..1] == c[..1] && c[..1][..0] == [];
    assert TypedText(c[..1]) == x;
    assert TypedText(c[..2]) == x;
  }

  lemma {:induction false} TypedTextAppend(a: seq<Command>, b: seq<Command>)
    ensures TypedText(a + b) == TypedText(a) + TypedText(b)
    decreases |b|
  {
    if b == [] {
      assert a + b == a;
      assert TypedText(a) + "" == TypedText(a);
    } else {
      var b' := b[..|b| - 1];
      var x := b[|b| - 1];
      TypedTextAppend(a, b');
      assert (a + b)[..|a + b| - 1] == a + b' && (a + b)[|a + b| - 1] == x;
      assert TypedText(a + b) == TypedText(a + b') + CommandText(x);
      assert TypedText(b) == TypedText(b') + CommandText(x);
      AppendAssoc(TypedText(a), TypedText(b'), CommandText(x));
    }
  }

  /** The full text is blank exactly when every chunk is blank: the empty-response notice depends on nothing else. */
  lemma EmptyResponseIffAllBlank(chunks: seq<string>)
    ensures IsBlank(Concat(DropLeadingBlank(chunks))) <==> forall k :: 0 <= k < |chunks| ==> IsBlank(chunks[k])
  {
    SkipsBlankPrefix(chunks);
    var n: nat :| SkipsTo(chunks, n);
    if n < |chunks| {
      assert chunks[n..][0] == chunks[n];
      VisibleHead(chunks[n..]);
    } else {
      assert chunks[n..] == [];
    }
  }

  /** Chunks that start with a visible one concatenate to visible text. */
  lemma VisibleHead(chunks: seq<string>)
    requires chunks != [] && !IsBlank(chunks[0])
    ensures !IsBlank(Concat(chunks))
  {
    HeadTail(chunks);
    ConcatFront(chunks[0], chunks[1..]);
    NotBlankPrefix(chunks[0], Concat(chunks[1..]));
  }

  /**
   * `["", "\n", "hello", " world"]` types "hello world", with no empty-response notice.
   * The literals come in as parameters bound by the requires: written inline,
   * the verifier unrolls DropLeadingBlank, IsBlank and Concat on the literal
   * chunks and runs past its resource limit.
   */
  lemma HelloWorldExample(chunks: seq<string>, empty: string, newline: string, hello: string, world: string)
    requires empty == "" && newline == "\n" && hello == "hello" && world == " world"
    requires chunks == [empty, newline, hello, world]
    ensures DropLeadingBlank(chunks) == [hello, world]
    ensures Concat(DropLeadingBlank(chunks)) == hello + world
    ensures EmptyNotice(Concat(DropLeadingBlank(chunks))) == []
  {
    SampleBlankness(empty, newline, hello);
    TwoBlankThenText(empty, newline, hello, world);
  }

  /** Two blank chunks, then one with visible text: typing starts at the third chunk. */
  lemma TwoBlankThenText(a: string, b: string, c: string, d: string)
    requires IsBlank(a) && IsBlank(b) && !IsBlank(c)
    ensures DropLeadingBlank([a, b, c, d]) == [c, d]
    ensures Concat([c, d]) == c + d && !IsBlank(c + d)
  {
    ConcatPair(c, d);
    NotBlankPrefix(c, d);
    FourAsCons(a, b, c, d);
    SkipsBlank(a, [b, c, d]);
    SkipsBlank(b, [c, d]);
    DropLeadingBlankStep([c, d]);
  }

  /** A four-element sequence as heads in front of its tails. */
  lemma FourAsCons<T>(a: T, b: T, c: T, d: T)
    ensures [a, b, c, d] == [a] + [b, c, d] && [b, c, d] == [b] + [c, d]
  {
  }

  /** The blankness of the sample chunks; literals as parameters, as above. */
  lemma SampleBlankness(empty: string, newline: string, hello: string)
    requires empty == "" && newline == "\n" && hello == "hello"
    ensures IsBlank(empty) && IsBlank(newline) && !IsBlank(hello)
  {
    BlankIffAllSpace(empty);
    BlankIffAllSpace(newline);
    assert IsSpace(newline[0]);
    BlankIffAllSpace(hello);
    assert !IsSpace(hello[0]);
  }
}
