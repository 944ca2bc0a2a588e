/**
 * `parse_prompt_and_role`: a prompt that opens with `/name` names a role;
 * the role is the first space- or colon-delimited token without its slash.
 * The role name is not checked against any list.
 */
module Prompt {
  import opened Wrappers
  import opened Text

  /** The separators of `re.split(" |:", ...)`. */
  predicate IsTokenSeparator(c: char) {
    c == ' ' || c == ':'
  }

  predicate NoSeparator(s: string) {
    forall i :: 0 <= i < |s| ==> !IsTokenSeparator(s[i])
  }

  /** `re.split(" |:", s)[0]`: the text before the first space or colon. */
  function FirstToken(s: string): (t: string)
    ensures StartsWith(s, t) && NoSeparator(t)
    ensures |t| == |s| || IsTokenSeparator(s[|t|])
    decreases |s|
  {
    if s == [] || IsTokenSeparator(s[0]) then "" else [s[0]] + FirstToken(s[1..])
  }

  /** Returns (prompt, role): role None when the first token has no leading slash. */
  function ParsePromptAndRole(raw: string): (string, Option<string>) {
    var prompt := Strip(raw);
    var role := FirstToken(prompt);
    if !StartsWith(role, "/") then (prompt, None)
    else (Strip(prompt[|role|..]), Some(role[1..]))
  }

  /** `text` is a slash, a role name without separators, then the rest, which is empty or starts at a separator. */
  predicate SplitsAsRole(text: string, role: string, rest: string) {
    text == "/" + role + rest && NoSeparator(role) && (rest == "" || IsTokenSeparator(rest[0]))
  }

  /** There is a role exactly when the stripped prompt starts with a slash; otherwise the prompt is only stripped. */
  lemma RoleIffSlash(raw: string)
    ensures ParsePromptAndRole(raw).1.None? <==> !StartsWith(Strip(raw), "/")
    ensures ParsePromptAndRole(raw).1.None? ==> ParsePromptAndRole(raw).0 == Strip(raw)
  {
    var prompt := Strip(raw);
    var t := FirstToken(prompt);
    if StartsWith(prompt, "/") {
      assert prompt[0] == '/' && !IsTokenSeparator(prompt[0]);
      assert t == [prompt[0]] + FirstToken(prompt[1..]);
    }
    if StartsWith(t, "/") {
      assert prompt[..1] == t[..1];
    }
  }

  /** Without the slash: a separator-free word followed by a separator-led rest. */
  lemma {:induction false} FirstTokenPlain(word: string, rest: string)
    requires NoSeparator(word) && (rest == "" || IsTokenSeparator(rest[0]))
    ensures FirstToken(word + rest) == word
    decreases |word|
  {
    if word != [] {
      FirstTokenPlain(word[1..], rest);
      assert (word + rest)[1..] == word[1..] + rest;
    }
  }

  /** Any role split of the stripped prompt is the one found: role, then the stripped rest as the prompt. */
  lemma RoleComplete(raw: string, role: string, rest: string)
    requires SplitsAsRole(Strip(raw), role, rest)
    ensures ParsePromptAndRole(raw) == (Strip(rest), Some(role))
  {
    RoleToken(Strip(raw), role, rest);
  }

  /** On a role split, the first token is the slash and the role, and what follows it is the rest. */
  lemma RoleToken(prompt: string, role: string, rest: string)
    requires SplitsAsRole(prompt, role, rest)
    ensures FirstToken(prompt) == "/" + role && StartsWith("/" + role, "/")
    ensures ("/" + role)[1..] == role && prompt[|"/" + role|..] == rest
  {
    var t := "/" + role;
    FirstTokenPlain(t, rest);
    assert prompt == t + rest;
    assert t[..1] == "/";
  }

  /** A stripped prompt that starts with a slash holds a role split, and the result is made from it. */
  lemma RoleSound(raw: string)
    requires StartsWith(Strip(raw), "/")
    ensures var t := FirstToken(Strip(raw));
            SplitsAsRole(Strip(raw), t[1..], Strip(raw)[|t|..])
            && ParsePromptAndRole(raw) == (Strip(Strip(raw)[|t|..]), Some(t[1..]))
  {
    var prompt := Strip(raw);
    var t := FirstToken(prompt);
    assert prompt[0] == '/' && !IsTokenSeparator(prompt[0]);
    assert t == [prompt[0]] + FirstToken(prompt[1..]);
    var role := t[1..];
    var rest := prompt[|t|..];
    assert prompt == t + rest;
    assert t == "/" + role;
    assert NoSeparator(role) by {
      forall i | 0 <= i < |role| ensures !IsTokenSeparator(role[i]) { assert role[i] == t[i + 1]; }
    }
  }

  /** `/role phrase`, with the phrase already stripped, asks for that role with that phrase. */
  lemma RoleThenPhrase(raw: string, role: string, phrase: string)
    requires NoSeparator(role) && phrase != [] && !IsSpace(phrase[0]) && !IsSpace(phrase[|phrase| - 1])
    requires raw == "/" + role + " " + phrase
    ensures ParsePromptAndRole(raw) == (phrase, Some(role))
  {
    var rest := " " + phrase;
    assert raw == "/" + role + rest;
    assert raw[|raw| - 1] == phrase[|phrase| - 1];
    StrippedAlready(raw);
    StripLeadingSpace(phrase);
    RoleComplete(raw, role, rest);
  }

  lemma StrippedAlready(s: string)
    requires s != [] && !IsSpace(s[0]) && !IsSpace(s[|s| - 1])
    ensures Strip(s) == s
  {
    StripAround("", s, "");
    assert "" + s + "" == s;
  }

  lemma StripLeadingSpace(s: string)
    requires s != [] && !IsSpace(s[0]) && !IsSpace(s[|s| - 1])
    ensures Strip(" " + s) == s
  {
    StripAround(" ", s, "");
    assert " " + s + "" == " " + s;
  }

  /** `/coder fix this` asks for role `coder` with prompt `fix this`. */
  lemma CoderExample()
    ensures ParsePromptAndRole("/coder fix this") == ("fix this", Some("coder"))
  {
    assert "/coder fix this" == "/" + "coder" + " " + "fix this";
    RoleThenPhrase("/coder fix this", "coder", "fix this");
  }

  /** A prompt without a leading slash is passed on stripped, with no role. */
  lemma PlainExample()
    ensures ParsePromptAndRole("  fix this\n") == ("fix this", None)
  {
    assert "  fix this\n" == "  " + "fix this" + "\n";
    StripAround("  ", "fix this", "\n");
    RoleIffSlash("  fix this\n");
  }
}
