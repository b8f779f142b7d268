/** A minimal Telegram bot client: the message building and response checking
    of the MiniBot class. The network, JSON decoding, configuration loading and
    console output are outside the model; decoded API responses come in as
    values and every request is modelled by the URL it would fetch. */
module Minibot {
  import opened Wrappers
  import opened PyStr

  // ---------------------------------------------------------------------
  // Decoded Bot API objects

  /** A chat; only its numeric id is used. */
  datatype Chat = Chat(id: int)

  /** A message; `text` is absent for non-text messages (photos, stickers). */
  datatype Message = Message(text: Option<string>, chat: Chat)

  /** One entry of the `result` list of getUpdates; `message` is absent for
      other kinds of update (edited messages, channel posts, ...). */
  datatype Update = Update(message: Option<Message>)

  /** A decoded API response: `ok` true with a `result`, or `ok` false with
      `error_code` and `description`. */
  datatype Response<T> = Ok(result: T) | Err(errorCode: int, description: string)

  /** What ends an operation early: the exceptions the code raises and the
      `sys.exit(1)` paths, as values. */
  datatype BotError =
    | EmptyDictionary
      // `max()` of the empty key-length list raises ValueError
    | NoMessagesYet
      // "Your bot has not received any messages yet.", then exit
    | RemoteError(code: int, description: string, configHint: bool)
      // the API answered `ok: false`; `configHint` is the extra
      // "Did you set up the .env file correctly?" line
    | MissingKey(key: string)
      // KeyError while indexing the decoded JSON

  // ---------------------------------------------------------------------
  // Constants

  const ApiPrefix: string := "https://api.telegram.org/bot"
  const CodeOpen: string := "<code>"
  const CodeClose: string := "</code>"
  /** Spaces between the longest key and its value. */
  const KeyGap: nat := 3
  const NotFound: int := 404

  /** The bot's base URL, `https://api.telegram.org/bot<TOKEN>/`: the token can
      be read back from between the fixed prefix and the final slash. */
  function BaseUrl(token: string): (r: string)
    ensures |r| == |ApiPrefix| + |token| + 1
    ensures r[..|ApiPrefix|] == ApiPrefix
    ensures r[|ApiPrefix|..|r| - 1] == token && r[|r| - 1] == '/'
  {
    ApiPrefix + token + "/"
  }

  // ---------------------------------------------------------------------
  // The key/value table of dictionary_to_msg, as a specification

  /** The length of the longest key of the mapping. */
  function LongestKeyLength<V>(entries: seq<(string, V)>): (m: nat)
    requires |entries| > 0
    ensures forall i :: 0 <= i < |entries| ==> |entries[i].0| <= m
    ensures exists i :: 0 <= i < |entries| && |entries[i].0| == m
  {
    if |entries| == 1 then |entries[0].0|
    else
      var rest := LongestKeyLength(entries[1..]);
      assert forall i :: 1 <= i < |entries| ==> entries[i] == entries[1..][i - 1];
      if |entries[0].0| >= rest then |entries[0].0| else rest
  }

  /** The column at which every value starts: the longest key length plus the gap. */
  function Indent<V>(entries: seq<(string, V)>): (n: nat)
    requires |entries| > 0
    ensures forall i :: 0 <= i < |entries| ==> |entries[i].0| + KeyGap <= n
    ensures exists i :: 0 <= i < |entries| && |entries[i].0| + KeyGap == n
  {
    LongestKeyLength(entries) + KeyGap
  }

  /** One table line: the key, padded with spaces to `indent`, then the value,
      inside a monospace marker. */
  function FormatLine(key: string, value: string, indent: int): (r: string)
    ensures |r| == |CodeOpen| + (if indent > |key| then indent else |key|) + |value| + |CodeClose|
  {
    CodeOpen + key + Spaces(indent - |key|) + value + CodeClose
  }

  /** The table lines, one per entry, in the mapping's iteration order. */
  function TableLines<V>(entries: seq<(string, V)>, str: V -> string): (lines: seq<string>)
    requires |entries| > 0
    ensures |lines| == |entries|
  {
    var indent := Indent(entries);
    seq(|entries|, i requires 0 <= i < |entries| => FormatLine(entries[i].0, str(entries[i].1), indent))
  }

  /** The whole table: the lines joined by newlines, no trailing newline. */
  function Table<V>(entries: seq<(string, V)>, str: V -> string): string
    requires |entries| > 0
  {
    Join("\n", TableLines(entries, str))
  }

  /** No key and no rendered value contains a newline. */
  predicate SingleLineEntries<V>(entries: seq<(string, V)>, str: V -> string)
  {
    forall i :: 0 <= i < |entries| ==> '\n' !in entries[i].0 && '\n' !in str(entries[i].1)
  }

  // ---------------------------------------------------------------------
  // The bot

  class MiniBot {
    const token: string
    const url: string
    const userId: string
    var debug: bool

    /** `__init__`: the token and default recipient come from the configuration. */
    constructor(token: string, userId: string, debug: bool)
      ensures this.token == token && this.userId == userId && this.debug == debug
      ensures url == BaseUrl(token)
    {
      this.token := token;
      this.url := BaseUrl(token);
      this.userId := userId;
      this.debug := debug;
    }

    /** The URL `get_updates` fetches. */
    function GetUpdatesUrl(): (r: string)
      ensures |r| == |url| + |"getUpdates"|
      ensures r[..|url|] == url && r[|url|..] == "getUpdates"
    {
      url + "getUpdates"
    }

    /** `check_updates`: a response passes unchanged when `ok` holds; otherwise
        it is an error carrying the code and description, with the
        configuration hint exactly for code 404. */
    static function CheckUpdates<T>(upd: Response<T>): (r: Result<Response<T>, BotError>)
      ensures r.Success? <==> upd.Ok?
      ensures r.Success? ==> r.value == upd
      ensures r.Failure? ==> (r.error.RemoteError?
                              && r.error.code == upd.errorCode
                              && r.error.description == upd.description
                              && (r.error.configHint <==> upd.errorCode == NotFound))
    {
      match upd
      case Ok(_) => Success(upd)
      case Err(code, description) => Failure(RemoteError(code, description, code == NotFound))
    }

    /** `get_last_chat_id_and_text`: the text and chat id of the LAST entry of
        `result`; an error when there is none, and a KeyError when the JSON
        lacks a key on the way. */
    static function GetLastChatIdAndText(updates: Response<seq<Update>>): (r: Result<(string, int), BotError>)
      ensures updates.Err? ==> r == Failure(MissingKey("result"))
      ensures updates.Ok? && |updates.result| == 0 ==> r == Failure(NoMessagesYet)
      ensures r.Success? <==>
                updates.Ok? && |updates.result| > 0
                && var last := updates.result[|updates.result| - 1];
                   last.message.Some? && last.message.value.text.Some?
      ensures r.Success? ==>
                var last := updates.result[|updates.result| - 1].message.value;
                r.value == (last.text.value, last.chat.id)
      ensures updates.Ok? && |updates.result| > 0 && r.Failure? ==>
                r.error == MissingKey(if updates.result[|updates.result| - 1].message.None? then "message" else "text")
    {
      match updates
      case Err(_, _) => Failure(MissingKey("result"))
      case Ok(result) =>
        var numUpdates := |result|;
        if numUpdates == 0 then Failure(NoMessagesYet)
        else
          var lastUpdate := numUpdates - 1;
          match result[lastUpdate].message
          case None => Failure(MissingKey("message"))
          case Some(m) =>
            match m.text
            case None => Failure(MissingKey("text"))
            case Some(text) => Success((text, m.chat.id))
    }

    /** `print_last_chat_id` without the printing: check the getUpdates
        response, then take the chat id of the last message. */
    static function LastChatId(upd: Response<seq<Update>>): (r: Result<int, BotError>)
      ensures upd.Err? ==> r.Failure? && r.error.RemoteError?
      ensures upd.Ok? && |upd.result| == 0 ==> r == Failure(NoMessagesYet)
      ensures r.Success? <==> upd.Ok? && GetLastChatIdAndText(upd).Success?
      ensures r.Success? ==> r.value == GetLastChatIdAndText(upd).value.1
      ensures r.Failure? ==> r.error == (if upd.Err? then CheckUpdates(upd).error else GetLastChatIdAndText(upd).error)
    {
      match CheckUpdates(upd)
      case Failure(e) => Failure(e)
      case Success(checked) =>
        match GetLastChatIdAndText(checked)
        case Failure(e) => Failure(e)
        case Success(pair) => Success(pair.1)
    }

    /** The recipient of `send_message`: the configured USER_ID when none is given. */
    function Recipient(chatId: Option<string>): (r: string)
      ensures chatId.Some? ==> r == chatId.value
      ensures chatId.None? ==> r == userId
    {
      chatId.GetOr(userId)
    }

    /** The URL `send_message` fetches: the text percent-encoded by `quote`,
        the resolved recipient, and HTML parse mode. */
    function SendMessageUrl(text: string, chatId: Option<string>, quote: string -> string): (r: string)
      ensures |r| >= |url| + |"sendMessage?"| + |"&parse_mode=html"|
      ensures r[..|url|] == url
      ensures r[|url|..|url| + |"sendMessage?"|] == "sendMessage?"
      ensures r[|r| - |"&parse_mode=html"|..] == "&parse_mode=html"
    {
      url + "sendMessage?text=" + quote(text) + "&chat_id=" + Recipient(chatId) + "&parse_mode=html"
    }

    /** The text `send_dictionary` sends: the optional header and a newline,
        then the table. */
    static function SendDictionaryText(msg: Option<string>, table: string): (r: string)
      ensures |r| == |table| + (if msg.Some? then |msg.value| + 1 else 0)
      ensures r[|r| - |table|..] == table
      ensures msg.Some? ==> r[..|msg.value| + 1] == msg.value + "\n"
    {
      (if msg.Some? then msg.value + "\n" else "") + table
    }

    /** `dictionary_to_msg`: builds the table line by line, as the source's
        loop does, then joins the lines. An empty mapping fails, since the
        source's `max()` raises on it. */
    static method DictionaryToMsg<V>(printDict: seq<(string, V)>, str: V -> string) returns (r: Result<string, BotError>)
      ensures |printDict| == 0 ==> r == Failure(EmptyDictionary)
      ensures |printDict| > 0 ==> r == Success(Table(printDict, str))
    {
      if |printDict| == 0 {
        return Failure(EmptyDictionary);
      }
      var longestKeyLength := LongestKeyLength(printDict);
      var nIndent := longestKeyLength + KeyGap;
      var lines: seq<string> := [];
      for i := 0 to |printDict|
        invariant |lines| == i
        invariant forall j :: 0 <= j < i ==> lines[j] == FormatLine(printDict[j].0, str(printDict[j].1), nIndent)
      {
        var (key, value) := printDict[i];
        lines := lines + [FormatLine(key, str(value), nIndent)];
      }
      assert nIndent == Indent(printDict);
      assert lines == TableLines(printDict, str) by {
        var spec := TableLines(printDict, str);
        assert |lines| == |spec|;
        forall j | 0 <= j < |lines|
          ensures lines[j] == spec[j]
        {
        }
      }
      r := Success(Join("\n", lines));
    }

    /** `send_dictionary`, up to the request: the URL it fetches. */
    method SendDictionary<V>(dict: seq<(string, V)>, msg: Option<string>, chatId: Option<string>,
                             str: V -> string, quote: string -> string) returns (r: Result<string, BotError>)
      ensures |dict| == 0 ==> r == Failure(EmptyDictionary)
      ensures |dict| > 0 ==> r == Success(SendMessageUrl(SendDictionaryText(msg, Table(dict, str)), chatId, quote))
    {
      var table := DictionaryToMsg(dict, str);
      match table
      case Failure(e) => r := Failure(e);
      case Success(t) =>
        var text := SendDictionaryText(msg, t);
        r := Success(SendMessageUrl(text, chatId, quote));
    }
  }

  // ---------------------------------------------------------------------
  // Properties of the table

  /** A line carries at least KeyGap spaces of padding, and is exactly the
      marker, the key, the padding, the value and the closing marker. */
  lemma LinePadding<V>(entries: seq<(string, V)>, str: V -> string, i: nat)
    requires i < |entries|
    ensures var pad := Indent(entries) - |entries[i].0|;
            pad >= KeyGap
            && TableLines(entries, str)[i] == CodeOpen + entries[i].0 + Spaces(pad) + str(entries[i].1) + CodeClose
  {
  }

  /** The longest key is followed by exactly KeyGap spaces. */
  lemma LongestKeyGetsGap<V>(entries: seq<(string, V)>, str: V -> string)
    requires |entries| > 0
    ensures exists i :: 0 <= i < |entries|
              && TableLines(entries, str)[i] == CodeOpen + entries[i].0 + "   " + str(entries[i].1) + CodeClose
  {
    var i :| 0 <= i < |entries| && |entries[i].0| == LongestKeyLength(entries);
    assert Spaces(Indent(entries) - |entries[i].0|) == "   ";
    assert TableLines(entries, str)[i] == CodeOpen + entries[i].0 + "   " + str(entries[i].1) + CodeClose;
  }

  /** Every line is as long as the indent plus its value plus the two markers. */
  lemma LineLength<V>(entries: seq<(string, V)>, str: V -> string, i: nat)
    requires i < |entries|
    ensures |TableLines(entries, str)[i]| == LongestKeyLength(entries) + KeyGap + |str(entries[i].1)| + |CodeOpen| + |CodeClose|
  {
  }

  /** Padding makes up for key length: lines whose values are equally long are
      equally long. */
  lemma SameValueWidthSameLineLength<V>(entries: seq<(string, V)>, str: V -> string, i: nat, j: nat)
    requires i < |entries| && j < |entries|
    requires |str(entries[i].1)| == |str(entries[j].1)|
    ensures |TableLines(entries, str)[i]| == |TableLines(entries, str)[j]|
  {
    LineLength(entries, str, i);
    LineLength(entries, str, j);
  }

  /** The layout of one line whose key fits the indent: the key right after
      the opening marker, spaces up to column |CodeOpen| + indent, the value
      from there, then the closing marker. */
  lemma FormatLineColumns(key: string, value: string, indent: int)
    requires |key| <= indent
    ensures var line := FormatLine(key, value, indent);
            var col := |CodeOpen| + indent;
            && |line| == col + |value| + |CodeClose|
            && line[..|CodeOpen|] == CodeOpen
            && line[|CodeOpen|..|CodeOpen| + |key|] == key
            && (forall k :: |CodeOpen| + |key| <= k < col ==> line[k] == ' ')
            && line[col..col + |value|] == value
            && line[col + |value|..] == CodeClose
  {
    var pad := Spaces(indent - |key|);
    var head := CodeOpen + key + pad;
    var line := FormatLine(key, value, indent);
    var col := |CodeOpen| + indent;
    assert line == head + value + CodeClose;
    assert |head| == col;
    forall k | |CodeOpen| + |key| <= k < col
      ensures line[k] == ' '
    {
      assert line[k] == head[k] == pad[k - |CodeOpen| - |key|];
    }
  }

  /** Column layout of line i: the key right after the opening marker, spaces
      up to column |CodeOpen| + Indent, the value from that column on (the same
      column for every line), then the closing marker. */
  lemma ValueColumn<V>(entries: seq<(string, V)>, str: V -> string, i: nat)
    requires i < |entries|
    ensures var line := TableLines(entries, str)[i];
            var key := entries[i].0;
            var value := str(entries[i].1);
            var col := |CodeOpen| + Indent(entries);
            && |line| == col + |value| + |CodeClose|
            && line[..|CodeOpen|] == CodeOpen
            && line[|CodeOpen|..|CodeOpen| + |key|] == key
            && (forall k :: |CodeOpen| + |key| <= k < col ==> line[k] == ' ')
            && line[col..col + |value|] == value
            && line[col + |value|..] == CodeClose
  {
    FormatLineColumns(entries[i].0, str(entries[i].1), Indent(entries));
  }

  /** A line opens and closes with the monospace markers. */
  lemma LineMarkers(key: string, value: string, indent: int)
    ensures var line := FormatLine(key, value, indent);
            |line| >= |CodeOpen| + |CodeClose|
            && line[..|CodeOpen|] == CodeOpen
            && line[|line| - |CodeClose|..] == CodeClose
  {
    var middle := key + Spaces(indent - |key|) + value;
    assert FormatLine(key, value, indent) == CodeOpen + middle + CodeClose;
  }

  /** Every table line opens and closes with the monospace markers. */
  lemma TableLineMarkers<V>(entries: seq<(string, V)>, str: V -> string, i: nat)
    requires i < |entries|
    ensures var line := TableLines(entries, str)[i];
            |line| >= |CodeOpen| + |CodeClose|
            && line[..|CodeOpen|] == CodeOpen
            && line[|line| - |CodeClose|..] == CodeClose
  {
    var line := FormatLine(entries[i].0, str(entries[i].1), Indent(entries));
    assert TableLines(entries, str)[i] == line;
    LineMarkers(entries[i].0, str(entries[i].1), Indent(entries));
  }

  /** The table opens with the marker of its first line and closes with the
      marker of its last line: no newline before the first line or after the last. */
  lemma TableEnds<V>(entries: seq<(string, V)>, str: V -> string)
    requires |entries| > 0
    ensures var t := Table(entries, str);
            |t| >= |CodeOpen| + |CodeClose|
            && t[..|CodeOpen|] == CodeOpen
            && t[|t| - |CodeClose|..] == CodeClose
  {
    var lines := TableLines(entries, str);
    var n := |entries| - 1;
    var t := Join("\n", lines);
    assert Table(entries, str) == t;
    assert |lines| == n + 1;
    TableLineMarkers(entries, str, 0);
    TableLineMarkers(entries, str, n);
    var first, last := lines[0], lines[n];
    assert |first| >= |CodeOpen| + |CodeClose| && first[..|CodeOpen|] == CodeOpen;
    assert |last| >= |CodeClose| && last[|last| - |CodeClose|..] == CodeClose;
    JoinBetween("\n", lines, CodeOpen, CodeClose);
    assert |t| >= |first| >= |CodeOpen| + |CodeClose|;
    assert t[..|CodeOpen|] == CodeOpen;
    assert t[|t| - |CodeClose|..] == CodeClose;
  }

  /** A table line contains no newline when its key and value do not. */
  lemma LineSingle(key: string, value: string, indent: int)
    requires '\n' !in key && '\n' !in value
    ensures '\n' !in FormatLine(key, value, indent)
  {
  }

  /** One line per entry: splitting the table on newlines gives back exactly
      the lines, in the mapping's order. */
  lemma {:induction false} TableSplitsIntoLines<V>(entries: seq<(string, V)>, str: V -> string)
    requires |entries| > 0
    requires SingleLineEntries(entries, str)
    ensures Split(Table(entries, str), '\n') == TableLines(entries, str)
    ensures |Split(Table(entries, str), '\n')| == |entries|
  {
    var lines := TableLines(entries, str);
    forall i | 0 <= i < |lines|
      ensures '\n' !in lines[i]
    {
      LineSingle(entries[i].0, str(entries[i].1), Indent(entries));
    }
    SplitJoin(lines, '\n');
  }

  /** The text `send_dictionary` sends splits into the header line (when
      given) followed by the table lines; without a header it is the table. */
  lemma {:induction false} SendDictionaryTextLines<V>(msg: Option<string>, entries: seq<(string, V)>, str: V -> string)
    requires |entries| > 0
    requires SingleLineEntries(entries, str)
    requires msg.Some? ==> '\n' !in msg.value
    ensures msg.None? ==> MiniBot.SendDictionaryText(msg, Table(entries, str)) == Table(entries, str)
    ensures Split(MiniBot.SendDictionaryText(msg, Table(entries, str)), '\n')
            == (if msg.Some? then [msg.value] else []) + TableLines(entries, str)
  {
    var lines := TableLines(entries, str);
    TableSplitsIntoLines(entries, str);
    if msg.Some? {
      var all := [msg.value] + lines;
      assert all[1..] == lines;
      forall i | 0 <= i < |all|
        ensures '\n' !in all[i]
      {
        if i > 0 {
          LineSingle(entries[i - 1].0, str(entries[i - 1].1), Indent(entries));
        }
      }
      SplitJoin(all, '\n');
    } else {
      assert [] + lines == lines;
    }
  }

  /** In the repository's example mapping the longest key, "key_long", has 8 characters. */
  lemma ExampleLongestKey(d: seq<(string, int)>)
    requires d == [("key1", 123), ("key2", 456), ("key_long", 789)]
    ensures LongestKeyLength(d) == 8
  {
    assert LongestKeyLength(d[2..]) == 8;
    assert LongestKeyLength(d[1..]) == 8;
  }

  /** The line lengths of the repository's example mapping, where the longest
      key, "key_long", has 8 characters and every value has 3 digits. */
  lemma ExampleLineLengths(d: seq<(string, int)>)
    requires d == [("key1", 123), ("key2", 456), ("key_long", 789)]
    ensures forall i :: 0 <= i < |d| ==> |TableLines(d, IntToStr)[i]| == 27
  {
    ExampleLongestKey(d);
    assert IntToStr(123) == "123";
    assert IntToStr(456) == "456";
    assert IntToStr(789) == "789";
    LineLength(d, IntToStr, 0);
    LineLength(d, IntToStr, 1);
    LineLength(d, IntToStr, 2);
  }

  /** The repository's own example: for {"key1": 123, "key2": 456,
      "key_long": 789} every line of the message is
      len("key_long") + 3 + 3 + 2*len("<code>") + 1 characters long. */
  lemma DictToMsgExample()
    ensures var d := [("key1", 123), ("key2", 456), ("key_long", 789)];
            forall line :: line in Split(Table(d, IntToStr), '\n') ==>
              |line| == |"key_long"| + 3 + 3 + 2 * |CodeOpen| + 1
  {
    var d := [("key1", 123), ("key2", 456), ("key_long", 789)];
    ExampleLineLengths(d);
    TableSplitsIntoLines(d, IntToStr);
  }

  // ---------------------------------------------------------------------
  // Properties of the update and response handling

  /** Only the newest update counts: what came before it is ignored. */
  lemma {:induction false} LastUpdateWins(older: seq<Update>, newest: Update)
    ensures MiniBot.GetLastChatIdAndText(Ok(older + [newest])) == MiniBot.GetLastChatIdAndText(Ok([newest]))
  {
    assert (older + [newest])[|older + [newest]| - 1] == newest;
  }

  /** The example of two messages "a" from chat 1 and "b" from chat 2: the
      result is ("b", 2), the last and not the first. */
  lemma LastMessageExample()
    ensures MiniBot.GetLastChatIdAndText(Ok([Update(Some(Message(Some("a"), Chat(1)))),
                                             Update(Some(Message(Some("b"), Chat(2))))]))
            == Success(("b", 2))
  {
  }

  // ---------------------------------------------------------------------
  // Properties of the request URLs

  /** Leaving out the recipient is the same as naming the configured USER_ID. */
  lemma DefaultRecipient(bot: MiniBot, text: string, quote: string -> string)
    ensures bot.SendMessageUrl(text, None, quote) == bot.SendMessageUrl(text, Some(bot.userId), quote)
  {
  }

  /** The sendMessage URL as the base, the method and the query string. */
  lemma SendMessageUrlParts(bot: MiniBot, text: string, chatId: Option<string>, quote: string -> string)
    ensures bot.SendMessageUrl(text, chatId, quote)
            == (bot.url + "sendMessage?")
               + Join("&", ["text=" + quote(text), "chat_id=" + bot.Recipient(chatId), "parse_mode=html"])
  {
    var p0, p1, p2 := "text=" + quote(text), "chat_id=" + bot.Recipient(chatId), "parse_mode=html";
    JoinThree("&", p0, p1, p2);
  }

  /** The query string of a sendMessage URL holds exactly three parameters, in
      this order: the encoded text, the recipient and the HTML parse mode
      (provided neither the encoded text nor the recipient has an '&'). */
  lemma {:induction false} SendMessageQuery(bot: MiniBot, text: string, chatId: Option<string>, quote: string -> string)
    requires '&' !in quote(text) && '&' !in bot.Recipient(chatId)
    ensures var r := bot.SendMessageUrl(text, chatId, quote);
            var start := |bot.url| + |"sendMessage?"|;
            start <= |r|
            && Split(r[start..], '&')
               == ["text=" + quote(text), "chat_id=" + bot.Recipient(chatId), "parse_mode=html"]
  {
    var params := ["text=" + quote(text), "chat_id=" + bot.Recipient(chatId), "parse_mode=html"];
    var prefix := bot.url + "sendMessage?";
    SendMessageUrlParts(bot, text, chatId, quote);
    assert (prefix + Join("&", params))[|prefix|..] == Join("&", params);
    assert '&' !in params[0] && '&' !in params[1] && '&' !in params[2];
    SplitJoin(params, '&');
  }
}
