# MiniBot message building, modelled in Dafny

MiniBot is a minimal Telegram bot client. It holds a bot token and a
default recipient (`USER_ID`). It polls `getUpdates` and reads the
sender and text of the newest message. It sends text through
`sendMessage`, and it can render a key/value mapping as an aligned
monospace table before sending it. This project models the part of
`MiniBot` that has logic:

- the table rendering of `dictionary_to_msg`;
- the choice of the newest message in `get_last_chat_id_and_text`;
- the response check of `check_updates`;
- the composition of the request text and URLs in `__init__`,
  `send_message` and `send_dictionary`.

Modules:

- `Wrappers` (wrappers.dfy): `Option` for Python's `None` arguments and
  `Result` for the error paths.
- `PyStr` (pystr.dfy): the Python string built-ins the code relies on,
  with Python's semantics: `" " * n`, `sep.join(parts)`, `s.split(sep)` for a
  one-character separator, and `str()` of an `int`, each paired with its
  inverse.
- `Minibot` (minibot.dfy): the decoded API objects (`Response`, `Update`,
  `Message`, `Chat`), the error values (`BotError`), the table as a
  specification (`LongestKeyLength`, `FormatLine`, `TableLines`, `Table`),
  the class `MiniBot`, and the lemmas.

A dictionary is a sequence of `(key, value)` pairs in insertion order.
Python's `str()` of a value is a function parameter `str`. The
`sys.exit(1)` paths and the `ValueError` that `max()` raises on an empty
dictionary become `Failure` values. The class keeps `token`, `url` and
`userId` as constants, because nothing reassigns them, and keeps `debug`
as a mutable field. Members that do not use `self` are `static`.
`dictionary_to_msg` keeps the source's loop that appends lines, and its
method is proved equal to the specification function `Table`. Every
property of the table is proved about `Table`.

## Model

| member | source | states |
|---|---|---|
| `Minibot.BaseUrl` | minibot.py:18 | The base URL is the fixed Telegram API prefix, then the token, then a final `/`. The token can be read back from between the prefix and the slash. |
| `Minibot.MiniBot.constructor` | minibot.py:14-21 | Stores the token, the default recipient and the debug flag. The URL is `BaseUrl(token)`. |
| `Minibot.MiniBot.GetUpdatesUrl` | minibot.py:58 | The updates URL is the bot's base URL followed by `getUpdates`. |
| `Minibot.MiniBot.CheckUpdates` | minibot.py:62-77 | Succeeds exactly when `ok` holds, and then returns the response unchanged. Otherwise it fails with the response's error code and description. The configuration hint is present exactly when the code is 404. |
| `Minibot.MiniBot.GetLastChatIdAndText` | minibot.py:79-96 | With no entries in `result`, fails with "no messages yet". Otherwise it returns the text and chat id of the entry at index `len(result) - 1`. It succeeds exactly when that entry has a message with text. When the last entry has no `message`, the error is `MissingKey("message")`; when its message has no `text`, it is `MissingKey("text")`; an `ok: false` response has no `result` and gives `MissingKey("result")`. |
| `Minibot.LastUpdateWins` | minibot.py:88-96 | Updates before the newest one do not affect the result. |
| `Minibot.LastMessageExample` | minibot.py:88-96 | For messages "a" from chat 1 then "b" from chat 2, the result is `("b", 2)`. |
| `Minibot.MiniBot.LastChatId` | minibot.py:141-146 | It succeeds exactly when the response is ok and the newest message can be read, and then returns that message's chat id. An `ok: false` response fails with exactly the error of `CheckUpdates`: its code, its description and the 404 hint. An ok response fails with exactly the error of `GetLastChatIdAndText`. |
| `Minibot.MiniBot.Recipient` | minibot.py:105-106 | The recipient is the given chat id, or the configured `USER_ID` when none is given. |
| `Minibot.MiniBot.SendMessageUrl` | minibot.py:105-108 | The send URL starts with the bot's base URL and `sendMessage?`, and ends with `&parse_mode=html`. |
| `Minibot.DefaultRecipient` | minibot.py:105-106 | Omitting the recipient gives the same request as naming `USER_ID`. |
| `Minibot.SendMessageQuery` | minibot.py:107-108 | The query string has exactly three parameters, in this order: `text=` with the encoded text, `chat_id=` with the resolved recipient, and `parse_mode=html`. This holds when neither value contains `&`. |
| `Minibot.MiniBot.SendDictionaryText` | minibot.py:122 | The text is the table, preceded by the header and one newline when a header is given: its length is the table's plus the header's plus one, it ends with the table, and it starts with the header and a newline. |
| `Minibot.LongestKeyLength` | minibot.py:134 | Returns a length that no key exceeds and that some key attains. |
| `Minibot.MiniBot.DictionaryToMsg` | minibot.py:125-139 | An empty mapping fails, as `max()` raises. Otherwise the loop builds exactly the lines of `Table` and joins them with newlines. |
| `Minibot.Indent` | minibot.py:135 | The value column is at least 3 past every key and exactly 3 past some key. |
| `Minibot.FormatLine` | minibot.py:138 | One line: its length is the two markers, the value and the larger of the indent and the key length. Its layout is stated by `FormatLineColumns` and `LineMarkers`. |
| `Minibot.FormatLineColumns` | minibot.py:138 | When the key fits the indent, the key follows `<code>`, spaces fill up to column `6 + indent`, the value starts there and `</code>` follows it. |
| `Minibot.LineMarkers` | minibot.py:138 | Every line opens with `<code>` and closes with `</code>`. |
| `Minibot.TableLines` | minibot.py:136-138 | There is one line per entry. Line i is `FormatLine` of entry i at the common indent (the body is that definition); `LinePadding`, `LineLength` and `ValueColumn` state what each line looks like. |
| `Minibot.Table` | minibot.py:139 | The lines joined with `"\n"` (the body is that definition). `TableEnds` and `TableSplitsIntoLines` state its properties. |
| `Minibot.TableEnds` | minibot.py:139 | The table starts with `<code>` and ends with `</code>`: there is no newline before the first line or after the last. |
| `Minibot.LinePadding` | minibot.py:134-138 | Line i is `<code>`, key i, `maxKeyLen + 3 - len(key i)` spaces, `str(value i)` and `</code>`. The padding is at least 3. |
| `Minibot.LongestKeyGetsGap` | minibot.py:134-138 | Some line, the one of a longest key, has exactly three spaces of padding. |
| `Minibot.LineLength` | minibot.py:134-138 | Every line is `maxKeyLen + 3 + len(str(value)) + 13` characters long. |
| `Minibot.SameValueWidthSameLineLength` | minibot.py:134-138 | Two lines whose values have the same length have the same length, whatever their keys. |
| `Minibot.ValueColumn` | minibot.py:135-138 | In every line the key follows `<code>`. Spaces fill up to column `6 + maxKeyLen + 3`, the value starts at that column (the same for every line), and `</code>` closes the line. |
| `Minibot.TableSplitsIntoLines` | minibot.py:136-139 | When keys and values have no newline, splitting the table on `"\n"` gives back exactly one line per entry, in iteration order. |
| `Minibot.DictToMsgExample` | tests.py:9-13 | For `{"key1": 123, "key2": 456, "key_long": 789}`, every line of the split message has length `len("key_long") + 3 + 3 + 2*len("<code>") + 1`. |
| `Minibot.MiniBot.SendDictionary` | minibot.py:114-123 | An empty mapping fails. Otherwise the URL requested is the send URL for the header-and-table text. |
| `Minibot.SendDictionaryTextLines` | minibot.py:122 | Without a header, the text is the table. With a header (that has no newline), the text splits into the header line followed by the table lines. |
| `PyStr.Spaces` | minibot.py:138 | `" " * n` is n spaces, and empty when n is not positive. |
| `PyStr.Join` | minibot.py:139 | `sep.join(parts)`: the parts with one separator between neighbours, and empty for no parts (the body is that definition). `JoinEnds`, `JoinSplit` and `SplitJoin` state its properties. |
| `PyStr.JoinEnds` | minibot.py:139 | A join starts with its first part and ends with its last part. |
| `PyStr.Split` | tests.py:12 | `split("\n")` never returns an empty list, and no piece contains the separator. |
| `PyStr.JoinSplit` | tests.py:12 | Joining the pieces of a split with the separator gives back the string. |
| `PyStr.SplitJoin` | minibot.py:139 | Splitting a join of separator-free parts gives back the parts. |
| `PyStr.IntToStr` | minibot.py:138 | `str()` of an int is non-empty and has no newline. |
| `PyStr.IntToStrRoundTrip` | minibot.py:138 | Reading back the decimal rendering of an int gives the int. |

## Left out

- Network I/O (`get_url`, `get_json_from_url` and the requests in `get_updates` and `send_message`): a request is modelled by its URL. A response is a decoded `Response` value given as an argument.
- JSON decoding: responses arrive already decoded. A chat id is an `int`, as in the Bot API, and every message has a chat.
- Percent-encoding: `urllib.parse.quote` is a function parameter `quote`. Its code is not part of this model, and no property of it is assumed. The code never decodes anything, so there is no encode/decode round trip to prove.
- Configuration loading (`load_dotenv`, `getenv`): the token and `USER_ID` are constructor arguments. The case where `getenv` returns `None` (which would put `None` into the URL) is not modelled.
- Console output (`print_error`, `print_output`, `print_debug`, `print_mode`, the debug messages): output only. The two error lines of `check_updates` are reduced to the code, the description and the `configHint` flag.
- Process termination (`sys.exit(1)`): modelled as `Failure` values of `BotError`.
- `collect_info_into_message` and the command-line block: a placeholder string and argument parsing. `example.py` is a demo with no logic.
- Recipient ids: `chat_id` is a string in the URL. The source formats an int id with `str()` as well.
- Dictionaries: keys are strings and are not required to be distinct. Python's `str()` of a value is a parameter, and is defined only for ints (`IntToStr`).
- `Minibot.MiniBot.SendMessageUrl`: its ensures gives only the fixed prefix and suffix. The query parameters are stated by `SendMessageQuery` and the default recipient by `DefaultRecipient`.
