# Keyboard-language synchronisation of protocol version 1.7, in Dafny

This project models the keyboard-language negotiation that protocol version 1.7
adds to the server's client proxy, and the platform selection logic under it.

- **Codec and reconciliation** (module `LanguageList`). On connection the server sends its layout
  list as one string: the 2-character codes written back to back. When the client's list comes back, the server walks
  it in strides of two while a complete stride remains. A dangling odd character is dropped. Each code is sorted into
  "supported" or "missed", each kept as a space-terminated string. The user gets one notification naming the missed
  codes if there are any.
- **The proxy** (module `ClientProxy`, class `ClientProxy1_7`). It records, in order:
  - the writes to the client's stream;
  - the notification requests;
  - the languages passed to `setKeyboardLanguage`;
  - the message codes handed to the version 1.6 parser.

  `Enter` sends the current language before doing the version 1.6 enter. `ParseMessage` handles the LanguageList and
  LanguageSet codes itself and hands every other code to the 1.6 parser once.
- **Layout selection** (module `AppUtilUnix`). Each keyboard input source is given as its array of languages, one
  `Option<string>` per entry. `None` stands for a null entry or one that cannot be converted. The methods model:
  - the Carbon layout list, which takes the first 2-character language of each source and drops repeats;
  - the X11 and Carbon `setKeyboardLanguage`, first-match searches. Their group lock or source selection, and their
    not-installed and select-failed warnings, are recorded as `KeyboardEffect`s;
  - the Carbon `getKeyboardLanguage`.

OS answers are parameters of the methods:
- what `getKeyboardLayoutList` and `getKeyboardLanguage` return to the proxy;
- the X11 installed list;
- the Carbon input sources;
- whether `TISSelectInputSource` succeeds;
- the string a handler reads from the stream;
- the result of the 1.6 parser.

## Model

| member | source | states |
|---|---|---|
| `LanguageList.EncodeLayouts` | src/lib/server/ClientProxy1_7.cpp:47-50 | the string built by appending every layout in turn is `Encode(layouts)` |
| `LanguageList.Encode` | src/lib/server/ClientProxy1_7.cpp:47-50 | the encoding of n 2-character codes has 2n characters |
| `LanguageList.EncodeAt` | src/lib/server/ClientProxy1_7.cpp:47-50 | the k-th code of a list of 2-character codes is the substring at offset 2k of its encoding |
| `LanguageList.Decode` | src/lib/server/ClientProxy1_7.cpp:90-91 | a payload of length n yields floor(n/2) codes; the k-th is the 2-character substring at offset 2k, in order; fewer than two characters yield none, with no error |
| `LanguageList.DecodeEncode` | src/lib/server/ClientProxy1_7.cpp:90-91 | decoding the encoding of a list of 2-character codes gives back that list |
| `LanguageList.EncodeDecode` | src/lib/server/ClientProxy1_7.cpp:90-91 | re-encoding decoded codes gives back the payload minus its last character when its length is odd, and the whole payload otherwise |
| `LanguageList.Missing` | src/lib/server/ClientProxy1_7.cpp:92-95 | there are no more missed codes than input codes, and none of them is a local layout |
| `LanguageList.Supported` | src/lib/server/ClientProxy1_7.cpp:96-99 | there are no more supported codes than input codes, and each of them is a local layout |
| `LanguageList.PartitionAppend` | src/lib/server/ClientProxy1_7.cpp:92-99 | missed and supported codes both distribute over concatenation of the input, so each half keeps input order |
| `LanguageList.PartitionCounts` | src/lib/server/ClientProxy1_7.cpp:92-99 | a code present locally keeps every occurrence, duplicates included, in the supported half and none in the missed half; an absent code the reverse |
| `LanguageList.Partition` | src/lib/server/ClientProxy1_7.cpp:92-99 | missed plus supported equals the decoded codes as a multiset; missed codes are decoded codes absent locally, supported ones decoded codes present locally |
| `LanguageList.MissingEmpty` | src/lib/server/ClientProxy1_7.cpp:92-95 | nothing is missed iff every decoded code is a local layout |
| `LanguageList.SpaceTerminated` | src/lib/server/ClientProxy1_7.cpp:93-98 | the space-terminated string is empty iff there are no codes |
| `LanguageList.SpaceTerminatedAt` | src/lib/server/ClientProxy1_7.cpp:93-98 | for 2-character codes the string has length 3 × count, code k at offset 3k and a space at offset 3k+2 |
| `LanguageList.Reconcile` | src/lib/server/ClientProxy1_7.cpp:87-100 | the stride loop leaves `missedLanguages` as the space-terminated missed codes of the decoded payload and `supportedLanguages` as the space-terminated supported ones |
| `LanguageList.MissingWarning` | src/lib/server/ClientProxy1_7.cpp:106-109 | at most one notification, titled "Language synchronization error", its text starting with the fixed prefix and continuing past it |
| `LanguageList.MissingWarningShown` | src/lib/server/ClientProxy1_7.cpp:106-109 | at most one notification; none iff every decoded code is local; otherwise its title is the fixed title and its text names every missed code in order |
| `LanguageList.OwnListNoWarning` | src/lib/server/ClientProxy1_7.cpp:84-109 | a client answering with the server's own 2-character layout list raises no notification |
| `ClientProxy.ClientProxy1_7.constructor` | src/lib/server/ClientProxy1_7.cpp:31-37 | a new proxy has recorded nothing and keeps the two language message codes |
| `ClientProxy.ClientProxy1_7.HandleClientConnected` | src/lib/server/ClientProxy1_7.cpp:44-52 | exactly one LanguageList write, carrying the encoding of the local layouts, is appended |
| `ClientProxy.ClientProxy1_7.EnterBase` | src/lib/server/ClientProxy1_7.cpp:62 | the version 1.6 enter appends its own write and nothing else |
| `ClientProxy.ClientProxy1_7.Enter` | src/lib/server/ClientProxy1_7.cpp:54-63 | the trace grows by the LanguageSet write of the current language followed by the version 1.6 enter |
| `ClientProxy.ClientProxy1_7.LangInfoReceived` | src/lib/server/ClientProxy1_7.cpp:81-110 | the notifications grow by exactly `MissingWarning` of the received list |
| `ClientProxy.ClientProxy1_7.LangSetReceived` | src/lib/server/ClientProxy1_7.cpp:112-119 | the received code is passed to `setKeyboardLanguage` unchanged, once |
| `ClientProxy.ClientProxy1_7.ParseMessage` | src/lib/server/ClientProxy1_7.cpp:65-79 | the LanguageList code runs the list handler and the LanguageSet code the set handler, both returning true without calling the 1.6 parser; any other code is passed once to the 1.6 parser, whose answer is returned unchanged |
| `AppUtilUnix.IndexOf` | src/lib/synergy/unix/AppUtilUnix.cpp:126-128 | the first position holding the string, or the length when it is absent |
| `AppUtilUnix.IndexOfAppend` | src/lib/synergy/unix/AppUtilUnix.cpp:88-89 | appending to a list does not move the first position of a string already in it |
| `AppUtilUnix.FirstLanguage` | src/lib/synergy/unix/AppUtilUnix.cpp:76-86 | the chosen entry has two characters and is one of the source's entries; there is none iff no entry converts to a 2-character string |
| `AppUtilUnix.FirstLanguageIsFirst` | src/lib/synergy/unix/AppUtilUnix.cpp:190-202 | the chosen entry is the earliest 2-character one, after null, non-convertible and other-length entries |
| `AppUtilUnix.GetKeyboardLanguage` | src/lib/synergy/unix/AppUtilUnix.cpp:187-203 | the early-return scan returns the first 2-character language of the current input source, or none |
| `AppUtilUnix.Candidates` | src/lib/synergy/unix/AppUtilUnix.cpp:72-93 | the first 2-character language of each input source, in source order, repeats included; at most one per source |
| `AppUtilUnix.LayoutList` | src/lib/synergy/unix/AppUtilUnix.cpp:72-95 | each source in turn adds its first 2-character language unless it is already listed; at most one code per source |
| `AppUtilUnix.GetKeyboardLayoutList` | src/lib/synergy/unix/AppUtilUnix.cpp:66-95 | the nested loops with continue and break build `LayoutList(kbds)` |
| `AppUtilUnix.LayoutListCodes` | src/lib/synergy/unix/AppUtilUnix.cpp:78-86 | every listed code has exactly two characters |
| `AppUtilUnix.LayoutListNoDuplicates` | src/lib/synergy/unix/AppUtilUnix.cpp:88-90 | no code is listed twice |
| `AppUtilUnix.LayoutListMembers` | src/lib/synergy/unix/AppUtilUnix.cpp:72-93 | a code is listed iff it is the first 2-character language of some input source; each source contributes at most one code |
| `AppUtilUnix.LayoutListOrder` | src/lib/synergy/unix/AppUtilUnix.cpp:72-89 | listed codes come in the order of their first appearance across the input sources |
| `AppUtilUnix.SetKeyboardLanguageX11` | src/lib/synergy/unix/AppUtilUnix.cpp:124-141 | locks exactly the group at the first position of the language in the installed list; if it is absent, no group is locked and only the not-installed warning is emitted |
| `AppUtilUnix.SourceWith` | src/lib/synergy/unix/AppUtilUnix.cpp:148-161 | the first input source having an entry equal to the language, or the source count when none has one |
| `AppUtilUnix.SetKeyboardLanguageCarbon` | src/lib/synergy/unix/AppUtilUnix.cpp:142-172 | selects the first input source with an entry equal to the language and stops, adding a warning if the selection fails; if no source matches, only the not-installed warning is emitted |

## Left out

- The X11 and Carbon calls are not modelled; they are foreign OS interfaces. Their answers are parameters. The calls
  that change the keyboard (the group lock and the source selection) are recorded as `KeyboardEffect`s.
- The X11 branch of `getKeyboardLayoutList` uses `X11LayoutsParser`, which is not part of this model. Its list is the
  `allInstalled` parameter of `SetKeyboardLanguageX11`.
- The X11 branch of `getKeyboardLanguage` reads Xkb atom names. It is not modelled.
- The Carbon `getKeyboardLanguage` can fall off its end without returning a value, which is undefined behaviour in
  C++. `GetKeyboardLanguage` returns `None` there.
- Carbon: a null language array is modelled as an empty one. The C++ loops call `CFArrayGetCount` on the array before
  testing it for null.
- Carbon: strings that do not fit the 128-byte buffer are modelled as `None`, like other non-convertible entries.
  That is how `CFStringGetCString` fails.
- `showMessageBox` runs a detached thread and a shell command. Only the request (title and text) is recorded, as a
  `Notice`.
- `ProtocolUtil::writef`/`readf` and the stream are not modelled. Writes are a recorded trace and reads are a given
  string. Stream decode failures are not modelled.
- The byte values of the two language message codes are defined outside ClientProxy1_7.cpp. The proxy receives them at
  construction.
- The event-handler registration in the constructor and destructor (lines 35 and 41) is runtime plumbing and is not
  modelled. So are `run`, `startNode` and `standardStartupStatic`.
- `ClientProxy1_6::parseMessage` and `ClientProxy1_6::enter` are not part of this model:
  - the parser is the function parameter `parseMessage16`, and every call to it is recorded;
  - the 1.6 enter is one `BaseEnter` write carrying its arguments.

  An unrecognised code reaching the oldest parser is therefore not shown to be fatal here.
- Only two log lines are modelled, both from `setKeyboardLanguage`: the not-installed warning (AppUtilUnix.cpp
  lines 140 and 172) and the select-failed warning (line 164). Each is recorded as a `KeyboardEffect` carrying the
  language, without its message text. Every other log line is left out, and with it the text of all messages. This
  includes the debug line listing the supported languages: `supportedLanguages` is computed but not recorded.
- `Reconcile`: the `(int)` cast of the payload size (ClientProxy1_7.cpp line 90) is not modelled. For a payload
  longer than the largest `int`, the model decodes every stride, where the source's cast would wrap. For example, a
  size of 2^32 + 4 wraps to 4 in the source, so it decodes 2 codes where the model decodes 2^31 + 2.
- Strings: the source's `std::string` counts bytes, and each Dafny `char` stands for one byte here. So every "two
  characters" in the contracts means two bytes, that is two UTF-8 code units. This covers `substr(i, 2)` and
  `size() - 2` in ClientProxy1_7.cpp and the `size() != 2` tests on UTF-8 output in AppUtilUnix.cpp. The model is not
  exact if a `char` is read as a Unicode scalar: "ü" is two UTF-8 bytes, which the source lists as a code.
- `Enter`: the 32-bit widths of the coordinates, sequence number and modifier mask are not modelled. The values are
  passed through unchanged.
- Core Foundation object lifetimes (`CFRelease`, the unreleased dictionary and source lists) are not modelled.
- `setKeyboardLanguage` returns nothing, and a failure is only logged. The model returns what it did as
  `KeyboardEffect`s.
- The Carbon `setKeyboardLanguage` compares entries of any length with the requested language (AppUtilUnix.cpp line
  159). It does not restrict them to 2-character entries.
