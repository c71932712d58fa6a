/** The selection logic of src/lib/synergy/unix/AppUtilUnix.cpp with the X11
    and Carbon calls taken out: an input source is the array of language
    strings its kTISPropertyInputSourceLanguages property gives, and the calls
    that change the keyboard are recorded as effects. */
module AppUtilUnix {
  import opened Wrappers

  /** One entry of an input source's language array: None stands for a null
      entry or one that CFStringGetCString cannot convert into its 128-byte
      buffer. */
  type LanguageEntry = Option<string>

  /** The language array of one keyboard input source. */
  type InputSource = seq<LanguageEntry>

  /** What setKeyboardLanguage does to the outside world: the keyboard call it
      makes and the two warnings it logs. */
  datatype KeyboardEffect =
    | LockGroup(group: nat)          // the Xkb group lock on the core keyboard
    | SelectSource(source: nat)      // selection of the input source at that index
    | WarnSelectFailed(lang: string) // warning: the selection was refused
    | WarnNotInstalled(lang: string) // warning: no installed layout has that language

  /** An entry that converts to a string of exactly two characters. */
  predicate IsLayoutEntry(entry: LanguageEntry)
  {
    entry.Some? && |entry.value| == 2
  }

  /** No two positions of `s` hold the same string. */
  predicate NoDuplicates(s: seq<string>)
  {
    forall p, q | 0 <= p < q < |s| :: s[p] != s[q]
  }

  /** First position of `x` in `xs`, or |xs| when it does not occur. */
  function IndexOf(xs: seq<string>, x: string): (i: nat)
    ensures i <= |xs|
    ensures i < |xs| <==> x in xs
    ensures i < |xs| ==> xs[i] == x
    ensures forall j | 0 <= j < i :: xs[j] != x
  {
    if xs == [] then 0 else if xs[0] == x then 0 else 1 + IndexOf(xs[1..], x)
  }

  /** Appending after the end leaves the first position of a present string alone. */
  lemma IndexOfAppend(xs: seq<string>, ys: seq<string>, x: string)
    requires x in xs
    ensures IndexOf(xs + ys, x) == IndexOf(xs, x)
  {
    var i := IndexOf(xs, x);
    assert (xs + ys)[i] == x;
    assert forall j | 0 <= j < i :: (xs + ys)[j] == xs[j];
  }

  // ---------------------------------------------------------------------------
  // The first 2-character language of an input source
  // ---------------------------------------------------------------------------

  /** The first entry that converts to a 2-character string, if any. */
  function FirstLanguage(languages: InputSource): (lang: Option<string>)
    ensures lang.Some? ==> |lang.value| == 2 && lang in languages
    ensures lang.None? <==> forall k | 0 <= k < |languages| :: !IsLayoutEntry(languages[k])
  {
    if languages == [] then None
    else if IsLayoutEntry(languages[0]) then languages[0]
    else FirstLanguage(languages[1..])
  }

  /** FirstLanguage picks the earliest 2-character entry. */
  lemma {:induction false} FirstLanguageIsFirst(languages: InputSource, k: nat)
    requires k < |languages| && IsLayoutEntry(languages[k])
    requires forall j | 0 <= j < k :: !IsLayoutEntry(languages[j])
    ensures FirstLanguage(languages) == languages[k]
  {
    if k > 0 {
      assert !IsLayoutEntry(languages[0]);
      FirstLanguageIsFirst(languages[1..], k - 1);
    }
  }

  /** Carbon getKeyboardLanguage: scan the current input source's languages and
      return the first one of two characters; None where the source falls off
      the end of the function without a return value. */
  method GetKeyboardLanguage(layoutLanguages: InputSource) returns (lang: Option<string>)
    ensures lang == FirstLanguage(layoutLanguages)
  {
    for index := 0 to |layoutLanguages|
      invariant forall j | 0 <= j < index :: !IsLayoutEntry(layoutLanguages[j])
    {
      var languageCode := layoutLanguages[index];
      if languageCode.None? {
        continue;
      }
      var langCode := languageCode.value;
      if |langCode| != 2 {
        continue;
      }
      FirstLanguageIsFirst(layoutLanguages, index);
      return Some(langCode);
    }
    return None;
  }

  // ---------------------------------------------------------------------------
  // getKeyboardLayoutList, Carbon branch
  // ---------------------------------------------------------------------------

  /** The first 2-character language of each input source, in source order,
      repeats included: what the sources offer before duplicates are dropped. */
  function Candidates(kbds: seq<InputSource>): (codes: seq<string>)
    ensures |codes| <= |kbds|
  {
    if kbds == [] then []
    else
      var init := Candidates(kbds[..|kbds| - 1]);
      match FirstLanguage(kbds[|kbds| - 1])
      case None => init
      case Some(c) => init + [c]
  }

  /** The layout list: each source in turn adds its first 2-character language
      unless that code is already listed. */
  function LayoutList(kbds: seq<InputSource>): (layoutLangCodes: seq<string>)
    ensures |layoutLangCodes| <= |kbds|
  {
    if kbds == [] then []
    else
      var init := LayoutList(kbds[..|kbds| - 1]);
      match FirstLanguage(kbds[|kbds| - 1])
      case None => init
      case Some(c) => if c in init then init else init + [c]
  }

  /** The loops of getKeyboardLayoutList: for each input source, skip null,
      non-convertible and other-length entries, add the first 2-character code
      if it is new, and stop looking at that source either way. */
  method GetKeyboardLayoutList(kbds: seq<InputSource>) returns (layoutLangCodes: seq<string>)
    ensures layoutLangCodes == LayoutList(kbds)
  {
    layoutLangCodes := [];
    for i := 0 to |kbds|
      invariant layoutLangCodes == LayoutList(kbds[..i])
    {
      var layoutLanguages := kbds[i];
      assert kbds[..i + 1][..i] == kbds[..i];
      assert kbds[..i + 1][i] == layoutLanguages;
      ghost var before := layoutLangCodes;
      for index := 0 to |layoutLanguages|
        invariant forall j | 0 <= j < index :: !IsLayoutEntry(layoutLanguages[j])
        invariant layoutLangCodes == before
      {
        var languageCode := layoutLanguages[index];
        if languageCode.None? {
          continue;
        }
        var langCode := languageCode.value;
        if |langCode| != 2 {
          continue;
        }
        FirstLanguageIsFirst(layoutLanguages, index);
        if langCode !in layoutLangCodes {
          layoutLangCodes := layoutLangCodes + [langCode];
        }
        break;
      }
    }
    assert kbds[..|kbds|] == kbds;
  }

  /** Every listed code has two characters. */
  lemma {:induction false} LayoutListCodes(kbds: seq<InputSource>)
    ensures forall k | 0 <= k < |LayoutList(kbds)| :: |LayoutList(kbds)[k]| == 2
  {
    if kbds != [] {
      LayoutListCodes(kbds[..|kbds| - 1]);
    }
  }

  /** No code is listed twice. */
  lemma {:induction false} LayoutListNoDuplicates(kbds: seq<InputSource>)
    ensures NoDuplicates(LayoutList(kbds))
  {
    if kbds != [] {
      LayoutListNoDuplicates(kbds[..|kbds| - 1]);
    }
  }

  /** A code is listed exactly when it is the first 2-character language of
      some input source; each source contributes at most one code. */
  lemma {:induction false} LayoutListMembers(kbds: seq<InputSource>)
    ensures forall c :: c in LayoutList(kbds) <==> c in Candidates(kbds)
    ensures forall c :: c in Candidates(kbds) <==> exists i | 0 <= i < |kbds| :: FirstLanguage(kbds[i]) == Some(c)
    ensures |LayoutList(kbds)| <= |Candidates(kbds)| <= |kbds|
  {
    if kbds != [] {
      var n := |kbds| - 1;
      var init := kbds[..n];
      LayoutListMembers(init);
      assert forall i | 0 <= i < n :: init[i] == kbds[i];
      forall c | c in Candidates(kbds)
        ensures exists i | 0 <= i < |kbds| :: FirstLanguage(kbds[i]) == Some(c)
      {
        if c !in Candidates(init) {
          assert FirstLanguage(kbds[n]) == Some(c);
        }
      }
    }
  }

  /** The listed codes come in the order of their first appearance across the
      input sources. */
  lemma {:induction false} LayoutListOrder(kbds: seq<InputSource>)
    ensures forall p, q | 0 <= p < q < |LayoutList(kbds)| ::
              IndexOf(Candidates(kbds), LayoutList(kbds)[p]) < IndexOf(Candidates(kbds), LayoutList(kbds)[q])
  {
    if kbds != [] {
      var n := |kbds| - 1;
      var init := kbds[..n];
      var r, cands := LayoutList(init), Candidates(init);
      LayoutListOrder(init);
      LayoutListMembers(init);
      match FirstLanguage(kbds[n])
      case None =>
      case Some(c) =>
        assert Candidates(kbds) == cands + [c];
        forall x | x in r
          ensures IndexOf(cands + [c], x) == IndexOf(cands, x) < |cands|
        {
          IndexOfAppend(cands, [c], x);
        }
        if c !in r {
          assert LayoutList(kbds) == r + [c];
          assert IndexOf(cands + [c], c) == |cands|;
          forall p, q | 0 <= p < q < |LayoutList(kbds)|
            ensures IndexOf(Candidates(kbds), LayoutList(kbds)[p]) < IndexOf(Candidates(kbds), LayoutList(kbds)[q])
          {
            assert LayoutList(kbds)[p] == r[p] && r[p] in r;
            if q < |r| {
              assert LayoutList(kbds)[q] == r[q] && r[q] in r;
            }
          }
        } else {
          forall p, q | 0 <= p < q < |r|
            ensures IndexOf(cands + [c], r[p]) < IndexOf(cands + [c], r[q])
          {
            assert r[p] in r && r[q] in r;
          }
        }
    }
  }

  // ---------------------------------------------------------------------------
  // setKeyboardLanguage
  // ---------------------------------------------------------------------------

  /** X11 setKeyboardLanguage: lock the group at the first position of `lang`
      in the installed list, or warn that it is not installed. */
  method SetKeyboardLanguageX11(allInstalled: seq<string>, lang: string) returns (effects: seq<KeyboardEffect>)
    ensures lang in allInstalled ==> effects == [LockGroup(IndexOf(allInstalled, lang))]
    ensures lang !in allInstalled ==> effects == [WarnNotInstalled(lang)]
  {
    effects := [];
    var i := 0;
    while i < |allInstalled|
      invariant 0 <= i <= |allInstalled|
      invariant forall j | 0 <= j < i :: allInstalled[j] != lang
      invariant effects == []
    {
      if allInstalled[i] == lang {
        effects := effects + [LockGroup(i)];
        break;
      }
      i := i + 1;
    }
    if i == |allInstalled| {
      effects := effects + [WarnNotInstalled(lang)];
    }
  }

  /** Position of the first input source that lists `lang` among its
      languages, or |kbds| when none does. */
  function SourceWith(kbds: seq<InputSource>, lang: string): (i: nat)
    ensures i <= |kbds|
    ensures i < |kbds| ==> Some(lang) in kbds[i]
    ensures forall j | 0 <= j < i :: Some(lang) !in kbds[j]
  {
    if kbds == [] then 0 else if Some(lang) in kbds[0] then 0 else 1 + SourceWith(kbds[1..], lang)
  }

  /** Carbon setKeyboardLanguage: select the first input source with an entry
      equal to `lang` and stop, warning as well when the selection fails;
      warn that the language is not installed when no source has it.
      `selectSucceeds` is what TISSelectInputSource reports. */
  method SetKeyboardLanguageCarbon(kbds: seq<InputSource>, lang: string, selectSucceeds: bool)
    returns (effects: seq<KeyboardEffect>)
    ensures effects == if SourceWith(kbds, lang) == |kbds| then [WarnNotInstalled(lang)]
                       else if selectSucceeds then [SelectSource(SourceWith(kbds, lang))]
                       else [SelectSource(SourceWith(kbds, lang)), WarnSelectFailed(lang)]
  {
    for i := 0 to |kbds|
      invariant forall j | 0 <= j < i :: Some(lang) !in kbds[j]
    {
      var layoutLanguages := kbds[i];
      for index := 0 to |layoutLanguages|
        invariant forall k | 0 <= k < index :: layoutLanguages[k] != Some(lang)
      {
        var languageCode := layoutLanguages[index];
        if languageCode.None? {
          continue;
        }
        if languageCode.value != lang {
          continue;
        }
        assert Some(lang) in kbds[i];
        effects := [SelectSource(i)];
        if !selectSucceeds {
          effects := effects + [WarnSelectFailed(lang)];
        }
        return;
      }
    }
    effects := [WarnNotInstalled(lang)];
  }
}
