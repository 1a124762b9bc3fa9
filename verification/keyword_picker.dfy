/** The keyword logic of `KeywordPicker` in
    public/video-ui/src/components/utils/KeywordPicker.js, as pure functions
    of the `keywords` prop (absent when the video has no tags) and the
    `newKeywordText` state. What the component hands to `updateKeywords` or
    `setState` is the function's result. */
module KeywordPicker {
  import opened Wrappers

  /** `updateNewKeywordText`: the input's value, or `""` when it is falsy. */
  function UpdateNewKeywordText(value: Option<string>): (text: string)
    ensures value.Some? ==> text == value.value
    ensures text == "" <==> value.None? || value.value == ""
  {
    if value.Some? && value.value != "" then value.value else ""
  }

  /** `Array.prototype.indexOf`: the first position of `x`, or -1. */
  function IndexOf(xs: seq<string>, x: string): (i: int)
    ensures -1 <= i < |xs|
    ensures i == -1 <==> x !in xs
    ensures 0 <= i ==> xs[i] == x && forall k :: 0 <= k < i ==> xs[k] != x
    decreases |xs|
  {
    if xs == [] then -1
    else if xs[0] == x then 0
    else
      var j := IndexOf(xs[1..], x);
      if j == -1 then -1 else j + 1
  }

  /** `isValidKeyword`: the text is non-empty and not already a keyword. */
  function IsValidKeyword(keywords: Option<seq<string>>, text: string): (ok: bool)
    ensures text == "" ==> !ok
    ensures text != "" && keywords.None? ==> ok
    ensures keywords.Some? && text != "" ==> (ok <==> text !in keywords.value)
  {
    if text == "" then false
    else if keywords.None? then true
    else if IndexOf(keywords.value, text) != -1 then false
    else true
  }

  /** The keyword list handed to `updateKeywords` and the text `setState` keeps. */
  datatype Added = Added(keywords: seq<string>, newKeywordText: string)

  /** `addKeyword`: the text appended to the list (an absent list read as
      empty), and the text cleared. */
  function AddKeyword(keywords: Option<seq<string>>, text: string): (r: Added)
    ensures |r.keywords| == |keywords.GetOr([])| + 1
    ensures r.keywords[..|r.keywords| - 1] == keywords.GetOr([])
    ensures r.keywords[|r.keywords| - 1] == text
    ensures r.newKeywordText == ""
  {
    var given := keywords.GetOr([]);
    assert (given + [text])[..|given|] == given;
    Added(given + [text], "")
  }

  /** `removeKeyword`: every occurrence of `keyword` dropped, all other
      keywords kept, in their original order. */
  function RemoveKeyword(keywords: seq<string>, keyword: string): (r: seq<string>)
    ensures keyword !in r
    ensures multiset(r) == multiset(keywords)[keyword := 0]
    ensures IsSubsequence(r, keywords)
    decreases |keywords|
  {
    if keywords == [] then []
    else
      var rest := RemoveKeyword(keywords[1..], keyword);
      assert keywords == [keywords[0]] + keywords[1..];
      if keywords[0] == keyword then rest
      else
        assert ([keywords[0]] + rest)[1..] == rest;
        [keywords[0]] + rest
  }

  /** No keyword occurs twice. */
  predicate Distinct(keywords: seq<string>) {
    forall i, j :: 0 <= i < j < |keywords| ==> keywords[i] != keywords[j]
  }

  /** Adding only valid keywords keeps a list free of duplicates and of empty
      keywords. */
  lemma ValidAddKeepsDistinct(keywords: Option<seq<string>>, text: string)
    requires Distinct(keywords.GetOr([])) && "" !in keywords.GetOr([])
    requires IsValidKeyword(keywords, text)
    ensures Distinct(AddKeyword(keywords, text).keywords)
    ensures "" !in AddKeyword(keywords, text).keywords
  {
    var r := AddKeyword(keywords, text).keywords;
    var given := keywords.GetOr([]);
    assert r == given + [text];
    forall i, j | 0 <= i < j < |r| ensures r[i] != r[j] {
      if j == |given| {
        assert r[i] == given[i];
      } else {
        assert r[i] == given[i] && r[j] == given[j];
      }
    }
  }

  lemma {:induction false} RemoveAppend(a: seq<string>, b: seq<string>, keyword: string)
    ensures RemoveKeyword(a + b, keyword) == RemoveKeyword(a, keyword) + RemoveKeyword(b, keyword)
    decreases |a|
  {
    if a == [] {
      assert a + b == b;
    } else {
      assert (a + b)[0] == a[0];
      assert (a + b)[1..] == a[1..] + b;
      RemoveAppend(a[1..], b, keyword);
    }
  }

  lemma {:induction false} RemoveAbsent(keywords: seq<string>, keyword: string)
    requires keyword !in keywords
    ensures RemoveKeyword(keywords, keyword) == keywords
    decreases |keywords|
  {
    if keywords != [] {
      assert keywords == [keywords[0]] + keywords[1..];
      RemoveAbsent(keywords[1..], keyword);
    }
  }

  /** Removing a keyword just added restores the list the picker was given. */
  lemma AddThenRemove(keywords: Option<seq<string>>, text: string)
    requires IsValidKeyword(keywords, text)
    ensures RemoveKeyword(AddKeyword(keywords, text).keywords, text) == keywords.GetOr([])
  {
    var given := keywords.GetOr([]);
    RemoveAppend(given, [text], text);
    RemoveAbsent(given, text);
    assert RemoveKeyword([text], text) == [];
  }

  /** Removing twice is removing once, and a removed non-empty keyword may be
      added again. */
  lemma RemoveIdempotent(keywords: seq<string>, keyword: string)
    ensures RemoveKeyword(RemoveKeyword(keywords, keyword), keyword) == RemoveKeyword(keywords, keyword)
    ensures keyword != "" ==> IsValidKeyword(Some(RemoveKeyword(keywords, keyword)), keyword)
  {
    RemoveAbsent(RemoveKeyword(keywords, keyword), keyword);
  }

  // ---------------------------------------------------------------------
  // The remove button
  // ---------------------------------------------------------------------

  /** The outcome of clicking a keyword's remove button. */
  datatype Click = Updated(keywords: seq<string>) | ReferenceError(name: string)

  /** The click handler as written: `renderKeyword` calls the bare name
      `removeKeyword`, which nothing in the module declares, so the click
      throws before any keyword is removed. */
  function RemoveClickAsWritten(keywords: seq<string>, keyword: string): (c: Click)
    ensures !c.Updated?
  {
    ReferenceError("removeKeyword")
  }

  /** A rendered keyword cannot be removed as written. */
  lemma RemoveClickAsWrittenKeepsKeyword()
    ensures var c := RemoveClickAsWritten(["news"], "news");
            !(c.Updated? && "news" !in c.keywords)
  {
  }

  /** The click handler as intended: the click removes the keyword through
      the component's `removeKeyword` method. Writing `this.removeKeyword`
      alone would not do: `render` passes `renderKeyword` to `map` unbound,
      so `this` is undefined inside it, and the handler must also be reached
      with `renderKeyword` bound to the component. */
  function RemoveClick(keywords: seq<string>, keyword: string): (c: Click)
    ensures c.Updated? && keyword !in c.keywords
    ensures multiset(c.keywords) == multiset(keywords)[keyword := 0]
  {
    Updated(RemoveKeyword(keywords, keyword))
  }
}
