/**
 * `Config.current_effects`: the `g:vim_ai_effects` setting is a
 * comma-separated list; the effects are its non-empty comma-separated parts,
 * in order.
 */
module Settings {
  import opened Text

  /** `[p for p in parts if len(p) > 0]` */
  function NonEmpty(parts: seq<string>): (kept: seq<string>)
    ensures forall p :: p in kept <==> p in parts && p != ""
    decreases |parts|
  {
    if parts == [] then []
    else (if parts[0] == "" then [] else [parts[0]]) + NonEmpty(parts[1..])
  }

  /** The effects named by the setting text. */
  function CurrentEffects(effectsSetting: string): (effects: seq<string>)
    ensures forall k :: 0 <= k < |effects| ==> effects[k] != "" && ',' !in effects[k]
  {
    var parts := Split(effectsSetting, ',');
    var effects := NonEmpty(parts);
    assert forall k :: 0 <= k < |effects| ==> effects[k] in parts;
    effects
  }

  /** The text with every occurrence of `c` removed. */
  function Without(s: string, c: char): (r: string)
    ensures c !in r && |r| <= |s|
    decreases |s|
  {
    if s == [] then "" else (if s[0] == c then "" else [s[0]]) + Without(s[1..], c)
  }

  /** Dropping empty parts does not change their concatenation. */
  lemma {:induction false} ConcatNonEmpty(parts: seq<string>)
    ensures Concat(NonEmpty(parts)) == Concat(parts)
    decreases |parts|
  {
    if parts != [] {
      ConcatNonEmpty(parts[1..]);
      assert parts == [parts[0]] + parts[1..];
      ConcatFront(parts[0], parts[1..]);
      if parts[0] == "" {
        assert NonEmpty(parts) == NonEmpty(parts[1..]);
        assert "" + Concat(parts[1..]) == Concat(parts[1..]);
      } else {
        ConcatFront(parts[0], NonEmpty(parts[1..]));
      }
    }
  }

  /** The parts of a split, concatenated, are the text without its separators. */
  lemma {:induction false} ConcatSplit(s: string, sep: char)
    ensures Concat(Split(s, sep)) == Without(s, sep)
    decreases |s|
  {
    if s == [] {
      ConcatFront("", []);
      assert [""] + [] == [""];
    } else {
      var rest := Split(s[1..], sep);
      var tail := Without(s[1..], sep);
      ConcatSplit(s[1..], sep);
      assert Concat(rest) == tail;
      if s[0] == sep {
        assert Split(s, sep) == [""] + rest;
        assert Without(s, sep) == tail;
        ConcatFront("", rest);
      } else {
        var first := [s[0]] + rest[0];
        assert Split(s, sep) == [first] + rest[1..];
        assert Without(s, sep) == [s[0]] + tail;
        assert rest == [rest[0]] + rest[1..];
        ConcatFront(rest[0], rest[1..]);
        ConcatFront(first, rest[1..]);
        assert first + Concat(rest[1..]) == [s[0]] + (rest[0] + Concat(rest[1..]));
      }
    }
  }

  /**
   * Every character of the setting other than a comma ends up in exactly one
   * effect, in order: the effects concatenated are the setting with its
   * commas removed.
   */
  lemma EffectsKeepText(effectsSetting: string)
    ensures Concat(CurrentEffects(effectsSetting)) == Without(effectsSetting, ',')
  {
    ConcatNonEmpty(Split(effectsSetting, ','));
    ConcatSplit(effectsSetting, ',');
  }

  /** A setting without commas names one effect, itself, unless it is empty. */
  lemma SingleEffect(effectsSetting: string)
    requires ',' !in effectsSetting
    ensures CurrentEffects(effectsSetting) == (if effectsSetting == "" then [] else [effectsSetting])
  {
    SplitWithoutSeparator(effectsSetting, ',');
    assert NonEmpty([effectsSetting]) == (if effectsSetting == "" then [] else [effectsSetting]) + NonEmpty([]);
  }
}
