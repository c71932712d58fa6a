/** The keyboard-language list of protocol version 1.7, as the server in
    src/lib/server/ClientProxy1_7.cpp builds and reads it: a payload of
    2-character layout codes written back to back, decoded in strides of two,
    and the reconciliation of the client's codes with the server's layouts. */
module LanguageList {

  /** Every code in `codes` is a 2-character layout code. */
  predicate AllLayoutCodes(codes: seq<string>)
  {
    forall k | 0 <= k < |codes| :: |codes[k]| == 2
  }

  // ---------------------------------------------------------------------------
  // Encoding: the server's layout list as one string field
  // ---------------------------------------------------------------------------

  /** The layouts appended one after another, with no delimiter. */
  function Encode(codes: seq<string>): (s: string)
    ensures AllLayoutCodes(codes) ==> |s| == 2 * |codes|
  {
    if codes == [] then "" else Encode(codes[..|codes| - 1]) + codes[|codes| - 1]
  }

  /** The k-th code of a list of 2-character codes sits at offset 2k of its encoding. */
  lemma {:induction false} EncodeAt(codes: seq<string>, k: nat)
    requires AllLayoutCodes(codes) && k < |codes|
    ensures |Encode(codes)| == 2 * |codes|
    ensures Encode(codes)[2 * k .. 2 * k + 2] == codes[k]
  {
    var n := |codes| - 1;
    var init := codes[..n];
    assert AllLayoutCodes(init);
    assert Encode(codes) == Encode(init) + codes[n];
    if k < n {
      EncodeAt(init, k);
      assert Encode(codes)[2 * k .. 2 * k + 2] == Encode(init)[2 * k .. 2 * k + 2];
    }
  }

  /** The loop of handleClientConnected: append each layout to the string. */
  method EncodeLayouts(layouts: seq<string>) returns (allKeyboardLayoutsStr: string)
    ensures allKeyboardLayoutsStr == Encode(layouts)
  {
    allKeyboardLayoutsStr := "";
    for k := 0 to |layouts|
      invariant allKeyboardLayoutsStr == Encode(layouts[..k])
    {
      assert layouts[..k + 1][..k] == layouts[..k];
      allKeyboardLayoutsStr := allKeyboardLayoutsStr + layouts[k];
    }
    assert layouts[..|layouts|] == layouts;
  }

  // ---------------------------------------------------------------------------
  // Decoding: strides of two, a dangling odd character is dropped
  // ---------------------------------------------------------------------------

  /** The codes a received payload yields: one per complete 2-character stride,
      in order; a payload shorter than two characters yields none. */
  function Decode(payload: string): (codes: seq<string>)
    ensures |codes| == |payload| / 2
    ensures forall k | 0 <= k < |codes| :: codes[k] == payload[2 * k .. 2 * k + 2]
  {
    if |payload| < 2 then [] else [payload[..2]] + Decode(payload[2..])
  }

  /** Round trip: decoding the encoding of 2-character codes gives them back. */
  lemma {:induction false} DecodeEncode(codes: seq<string>)
    requires AllLayoutCodes(codes)
    ensures Decode(Encode(codes)) == codes
  {
    var d := Decode(Encode(codes));
    if codes != [] {
      EncodeAt(codes, 0);
    }
    assert |d| == |codes|;
    forall k | 0 <= k < |codes|
      ensures d[k] == codes[k]
    {
      EncodeAt(codes, k);
    }
  }

  /** Decoding loses nothing but the last character of an odd-length payload. */
  lemma {:induction false} EncodeDecode(payload: string)
    ensures Encode(Decode(payload)) == payload[..|payload| - |payload| % 2]
  {
    var d := Decode(payload);
    var s := Encode(d);
    var n := |payload| - |payload| % 2;
    assert AllLayoutCodes(d);
    assert |s| == n;
    forall j | 0 <= j < n
      ensures s[j] == payload[j]
    {
      var k := j / 2;
      EncodeAt(d, k);
      assert s[2 * k .. 2 * k + 2] == payload[2 * k .. 2 * k + 2];
      assert s[j] == s[2 * k .. 2 * k + 2][j - 2 * k];
    }
  }

  // ---------------------------------------------------------------------------
  // Reconciliation: supported and missed codes
  // ---------------------------------------------------------------------------

  /** The codes that are not among the local layouts, in input order. */
  function Missing(codes: seq<string>, localLayouts: seq<string>): (missed: seq<string>)
    ensures |missed| <= |codes|
    ensures forall k | 0 <= k < |missed| :: missed[k] !in localLayouts
  {
    if codes == [] then []
    else
      var rest := Missing(codes[..|codes| - 1], localLayouts);
      var layout := codes[|codes| - 1];
      if layout in localLayouts then rest else rest + [layout]
  }

  /** The codes that are among the local layouts, in input order. */
  function Supported(codes: seq<string>, localLayouts: seq<string>): (supported: seq<string>)
    ensures |supported| <= |codes|
    ensures forall k | 0 <= k < |supported| :: supported[k] in localLayouts
  {
    if codes == [] then []
    else
      var rest := Supported(codes[..|codes| - 1], localLayouts);
      var layout := codes[|codes| - 1];
      if layout in localLayouts then rest + [layout] else rest
  }

  /** Both halves distribute over concatenation: each keeps input order. */
  lemma {:induction false} PartitionAppend(a: seq<string>, b: seq<string>, localLayouts: seq<string>)
    ensures Missing(a + b, localLayouts) == Missing(a, localLayouts) + Missing(b, localLayouts)
    ensures Supported(a + b, localLayouts) == Supported(a, localLayouts) + Supported(b, localLayouts)
  {
    if b == [] {
      assert a + b == a;
    } else {
      var n := |b| - 1;
      PartitionAppend(a, b[..n], localLayouts);
      assert (a + b)[..|a + b| - 1] == a + b[..n];
      assert (a + b)[|a + b| - 1] == b[n];
    }
  }

  /** Every code lands in exactly one half: a code present locally keeps all of
      its occurrences in Supported and none in Missing, an absent one the reverse. */
  lemma {:induction false} PartitionCounts(codes: seq<string>, localLayouts: seq<string>, c: string)
    ensures multiset(Missing(codes, localLayouts))[c] ==
            if c in localLayouts then 0 else multiset(codes)[c]
    ensures multiset(Supported(codes, localLayouts))[c] ==
            if c in localLayouts then multiset(codes)[c] else 0
  {
    if codes != [] {
      var n := |codes| - 1;
      PartitionCounts(codes[..n], localLayouts, c);
      assert codes == codes[..n] + [codes[n]];
      assert multiset(codes) == multiset(codes[..n]) + multiset{codes[n]};
    }
  }

  /** The two halves together are the decoded codes, as a multiset. */
  lemma Partition(codes: seq<string>, localLayouts: seq<string>)
    ensures multiset(Missing(codes, localLayouts)) + multiset(Supported(codes, localLayouts)) == multiset(codes)
    ensures forall c | c in Missing(codes, localLayouts) :: c in codes && c !in localLayouts
    ensures forall c | c in Supported(codes, localLayouts) :: c in codes && c in localLayouts
  {
    forall c
      ensures (multiset(Missing(codes, localLayouts)) + multiset(Supported(codes, localLayouts)))[c] == multiset(codes)[c]
      ensures c in Missing(codes, localLayouts) ==> c in codes && c !in localLayouts
      ensures c in Supported(codes, localLayouts) ==> c in codes && c in localLayouts
    {
      PartitionCounts(codes, localLayouts, c);
    }
  }

  /** Nothing is missed exactly when every code is a local layout. */
  lemma {:induction false} MissingEmpty(codes: seq<string>, localLayouts: seq<string>)
    ensures Missing(codes, localLayouts) == [] <==> forall k | 0 <= k < |codes| :: codes[k] in localLayouts
  {
    if codes != [] {
      var n := |codes| - 1;
      MissingEmpty(codes[..n], localLayouts);
      assert forall k | 0 <= k < n :: codes[..n][k] == codes[k];
    }
  }

  // ---------------------------------------------------------------------------
  // The diagnostic strings: each code followed by one space
  // ---------------------------------------------------------------------------

  /** Each code followed by one space, as missedLanguages and supportedLanguages
      are built. */
  function SpaceTerminated(codes: seq<string>): (s: string)
    ensures s == "" <==> codes == []
  {
    if codes == [] then "" else SpaceTerminated(codes[..|codes| - 1]) + codes[|codes| - 1] + " "
  }

  /** For 2-character codes the string has three characters per code: the code
      at offset 3k and a space at offset 3k + 2. */
  lemma {:induction false} SpaceTerminatedAt(codes: seq<string>, k: nat)
    requires AllLayoutCodes(codes) && k < |codes|
    ensures |SpaceTerminated(codes)| == 3 * |codes|
    ensures SpaceTerminated(codes)[3 * k .. 3 * k + 2] == codes[k]
    ensures SpaceTerminated(codes)[3 * k + 2] == ' '
  {
    var n := |codes| - 1;
    var init := codes[..n];
    assert AllLayoutCodes(init);
    assert SpaceTerminated(codes) == SpaceTerminated(init) + codes[n] + " ";
    if n > 0 {
      SpaceTerminatedAt(init, if k < n then k else 0);
    }
    if k < n {
      assert SpaceTerminated(codes)[3 * k .. 3 * k + 2] == SpaceTerminated(init)[3 * k .. 3 * k + 2];
    }
  }

  /** The loop of langInfoReceived: walk the payload in strides of two while a
      complete stride remains, and append each code and a space to the missed or
      to the supported string. */
  method Reconcile(clientLayoutList: string, localLayouts: seq<string>)
    returns (missedLanguages: string, supportedLanguages: string)
    ensures missedLanguages == SpaceTerminated(Missing(Decode(clientLayoutList), localLayouts))
    ensures supportedLanguages == SpaceTerminated(Supported(Decode(clientLayoutList), localLayouts))
  {
    ghost var codes := Decode(clientLayoutList);
    missedLanguages, supportedLanguages := "", "";
    var i := 0;
    while i <= |clientLayoutList| - 2
      invariant 0 <= i <= |clientLayoutList| && i % 2 == 0
      invariant missedLanguages == SpaceTerminated(Missing(codes[..i / 2], localLayouts))
      invariant supportedLanguages == SpaceTerminated(Supported(codes[..i / 2], localLayouts))
    {
      var layout := clientLayoutList[i..i + 2];
      assert codes[..i / 2 + 1][..i / 2] == codes[..i / 2];
      assert codes[..i / 2 + 1][i / 2] == layout;
      if layout !in localLayouts {
        missedLanguages := missedLanguages + layout;
        missedLanguages := missedLanguages + [' '];
      } else {
        supportedLanguages := supportedLanguages + layout;
        supportedLanguages := supportedLanguages + [' '];
      }
      i := i + 2;
    }
    assert codes[..i / 2] == codes;
  }

  // ---------------------------------------------------------------------------
  // The user notification
  // ---------------------------------------------------------------------------

  /** A showMessageBox request: title and text. */
  datatype Notice = Notice(title: string, text: string)

  const WarningTitle := "Language synchronization error"
  const WarningPrefix := "This languages are required for server proper work: "

  /** The notifications a received language list raises: one naming the missed
      codes when there are any, none otherwise. */
  function MissingWarning(clientLayoutList: string, localLayouts: seq<string>): (notices: seq<Notice>)
    ensures |notices| <= 1
    ensures forall k | 0 <= k < |notices| ::
              notices[k].title == WarningTitle && |notices[k].text| > |WarningPrefix| &&
              notices[k].text[..|WarningPrefix|] == WarningPrefix
  {
    var missedLanguages := SpaceTerminated(Missing(Decode(clientLayoutList), localLayouts));
    if missedLanguages == "" then [] else [Notice(WarningTitle, WarningPrefix + missedLanguages)]
  }

  /** `text` is the warning prefix followed by each of `codes`, in order, each
      with its space. */
  predicate NamesCodes(text: string, codes: seq<string>)
  {
    |text| == |WarningPrefix| + 3 * |codes| &&
    text[..|WarningPrefix|] == WarningPrefix &&
    forall k | 0 <= k < |codes| ::
      text[|WarningPrefix| + 3 * k .. |WarningPrefix| + 3 * k + 2] == codes[k] &&
      text[|WarningPrefix| + 3 * k + 2] == ' '
  }

  /** The warning text names every missed code. */
  lemma WarningText(missed: seq<string>)
    requires AllLayoutCodes(missed)
    ensures NamesCodes(WarningPrefix + SpaceTerminated(missed), missed)
  {
  }

  /** The warning is raised at most once, exactly when some decoded code is not a
      local layout, and its text is the fixed prefix followed by every missed
      code, in input order. */
  lemma MissingWarningShown(clientLayoutList: string, localLayouts: seq<string>)
    ensures |MissingWarning(clientLayoutList, localLayouts)| <= 1
    ensures MissingWarning(clientLayoutList, localLayouts) == [] <==>
            forall k | 0 <= k < |Decode(clientLayoutList)| :: Decode(clientLayoutList)[k] in localLayouts
    ensures MissingWarning(clientLayoutList, localLayouts) != [] ==>
            MissingWarning(clientLayoutList, localLayouts)[0].title == WarningTitle &&
            NamesCodes(MissingWarning(clientLayoutList, localLayouts)[0].text,
                       Missing(Decode(clientLayoutList), localLayouts))
  {
    var codes := Decode(clientLayoutList);
    var missed := Missing(codes, localLayouts);
    MissingEmpty(codes, localLayouts);
    if missed != [] {
      Partition(codes, localLayouts);
      assert AllLayoutCodes(missed) by {
        forall k | 0 <= k < |missed| ensures |missed[k]| == 2 {
          assert missed[k] in missed;
        }
      }
      WarningText(missed);
    }
  }

  /** A client that answers with the server's own list of 2-character layouts
      is never warned about. */
  lemma OwnListNoWarning(localLayouts: seq<string>)
    requires AllLayoutCodes(localLayouts)
    ensures MissingWarning(Encode(localLayouts), localLayouts) == []
  {
    DecodeEncode(localLayouts);
    MissingWarningShown(Encode(localLayouts), localLayouts);
  }
}
