/** The server's proxy for a client speaking protocol version 1.7
    (src/lib/server/ClientProxy1_7.cpp): the language-list exchange on
    connection, the language push on enter, and the dispatch of the two new
    message codes ahead of the version 1.6 parser. Stream writes, user
    notifications, keyboard-language requests and hand-offs to the 1.6 parser
    are recorded in order. */
module ClientProxy {
  import opened LanguageList

  /** A 4-byte message code, compared byte for byte. */
  type MessageCode = s: string | |s| == 4 witness "    "

  /** What the proxy writes to the client's stream. */
  datatype Write =
    | LanguageListWrite(layouts: string)
    | LanguageSetWrite(language: string)
      // the writes of the version 1.6 enter, as one record of its arguments
    | BaseEnter(xAbs: int, yAbs: int, seqNum: nat, mask: nat, forScreensaver: bool)

  class ClientProxy1_7 {
    /** kMsgDLanguageList and kMsgDLanguageSet. */
    const languageListCode: MessageCode
    const languageSetCode: MessageCode

    /** Everything written to the stream, in order. */
    var writes: seq<Write>
    /** Every showMessageBox request, in order. */
    var notices: seq<Notice>
    /** Every language passed to setKeyboardLanguage, in order. */
    var languageRequests: seq<string>
    /** Every code handed to the version 1.6 parser, in order. */
    var baseParsed: seq<MessageCode>

    constructor (languageListCode: MessageCode, languageSetCode: MessageCode)
      ensures this.languageListCode == languageListCode && this.languageSetCode == languageSetCode
      ensures writes == [] && notices == [] && languageRequests == [] && baseParsed == []
    {
      this.languageListCode := languageListCode;
      this.languageSetCode := languageSetCode;
      writes, notices, languageRequests, baseParsed := [], [], [], [];
    }

    /** On connection: send the local layout list, `layouts` being what
        getKeyboardLayoutList returns, as one LanguageList string. */
    method HandleClientConnected(layouts: seq<string>)
      modifies this`writes
      ensures writes == old(writes) + [LanguageListWrite(Encode(layouts))]
    {
      var allKeyboardLayoutsStr := EncodeLayouts(layouts);
      writes := writes + [LanguageListWrite(allKeyboardLayoutsStr)];
    }

    /** The version 1.6 enter, whose writes are not part of this model. */
    method EnterBase(xAbs: int, yAbs: int, seqNum: nat, mask: nat, forScreensaver: bool)
      modifies this`writes
      ensures writes == old(writes) + [BaseEnter(xAbs, yAbs, seqNum, mask, forScreensaver)]
    {
      writes := writes + [BaseEnter(xAbs, yAbs, seqNum, mask, forScreensaver)];
    }

    /** On enter: send the current language, `currentLanguage` being what
        getKeyboardLanguage returns, before the version 1.6 enter. */
    method Enter(xAbs: int, yAbs: int, seqNum: nat, mask: nat, forScreensaver: bool, currentLanguage: string)
      modifies this`writes
      ensures writes == old(writes) + [LanguageSetWrite(currentLanguage), BaseEnter(xAbs, yAbs, seqNum, mask, forScreensaver)]
    {
      writes := writes + [LanguageSetWrite(currentLanguage)];
      EnterBase(xAbs, yAbs, seqNum, mask, forScreensaver);
    }

    /** A LanguageList message arrived with `clientLayoutList` as its string;
        `localLayouts` is what getKeyboardLayoutList returns. Warn the user
        once about the client's codes the server lacks, if there are any. */
    method LangInfoReceived(clientLayoutList: string, localLayouts: seq<string>)
      modifies this`notices
      ensures notices == old(notices) + MissingWarning(clientLayoutList, localLayouts)
    {
      var missedLanguages, supportedLanguages := Reconcile(clientLayoutList, localLayouts);
      if missedLanguages != "" {
        notices := notices + [Notice(WarningTitle, WarningPrefix + missedLanguages)];
      }
    }

    /** A LanguageSet message arrived with `languageCode` as its string: pass it
        on to setKeyboardLanguage as it is. */
    method LangSetReceived(languageCode: string)
      modifies this`languageRequests
      ensures languageRequests == old(languageRequests) + [languageCode]
    {
      languageRequests := languageRequests + [languageCode];
    }

    /** Dispatch one message: the two language codes are handled here and
        reported handled; any other code goes once to the version 1.6 parser,
        `parseMessage16`, whose answer is returned. `payload` is the string the
        handler reads from the stream. */
    method ParseMessage(code: MessageCode, payload: string, localLayouts: seq<string>,
                        parseMessage16: MessageCode -> bool)
      returns (handled: bool)
      modifies this`notices, this`languageRequests, this`baseParsed
      ensures code == languageListCode ==>
                handled &&
                notices == old(notices) + MissingWarning(payload, localLayouts) &&
                languageRequests == old(languageRequests) && baseParsed == old(baseParsed)
      ensures code != languageListCode && code == languageSetCode ==>
                handled &&
                languageRequests == old(languageRequests) + [payload] &&
                notices == old(notices) && baseParsed == old(baseParsed)
      ensures code != languageListCode && code != languageSetCode ==>
                handled == parseMessage16(code) &&
                baseParsed == old(baseParsed) + [code] &&
                notices == old(notices) && languageRequests == old(languageRequests)
    {
      if code == languageListCode {
        LangInfoReceived(payload, localLayouts);
      } else if code == languageSetCode {
        LangSetReceived(payload);
      } else {
        baseParsed := baseParsed + [code];
        return parseMessage16(code);
      }
      return true;
    }
  }
}
