# A verified model of the reminders service

The repository holds a small reminders service: a text store with a line command protocol
(`DataProvider/DBTextFile`, `Server`), a client for it (`ClientLib`), and an HTTP front end
that serves files and forwards requests to the store (`HttpWrapper`). This project models
three parts of it in Dafny and proves what they guarantee.

**The HTTP parser and printers.** `HttpRequest` is the incremental request parser: a machine
of twenty states that fills a request byte by byte, as the class `RequestParser` and as a step
function. `HttpGrammar` defines the accepted language independently, from the classes of
bytes up, as syntax trees with a spelling and a meaning, after sections 2.2, 3.1, 4.2 and 5.1 of RFC 1945. `HttpSoundness` and
`HttpCompleteness` go through the states one by one; `HttpTheorems` states the results:
machine and grammar are the same, in both directions, and a buffer is rejected exactly when no
extension of it is accepted, at the first byte where that is so. `HttpPrinter` relates the
parser to the header printer, `HttpVersion` says which digits of the input the version numbers
stand for and when they stay within an `int`, `HttpReply` proves that a client can cut every
reply out of the byte stream, `HttpAnswers` says what is sent for
which path, and `UrlCoding` covers percent-decoding.

**The store and its protocol.** `Splitter` is `std::sregex_token_iterator` with index -1
(section 28.12.2 of ISO C++14), with a characterisation and its round trips. `Store` has the
classes `Entry` and `DBTextFile`, each method proved against a function on tables of rows.
`Session` is the command protocol, and `Protocol` states it as its clients know it: which line is
which command, what it changes, and the bytes of its answer. `Commands`, `Persistence` and `OrderedMap` prove what holds
over whole runs: what is preserved on disk, when a lookup can leave a row's bounds, and that
the list of rows is an insertion-ordered map as long as no rename clashes. `RdbHandler` and
`EndToEnd` follow a listing from the store through the server, the client and the web handler
to the HTTP reply; `WebGet` says for every `/get` path when the web handler runs past its field
list and when its reply is right. `Examples` and `WebExamples` have files and requests at which
properties fail.

**The server's life.** `Lifecycle` is a transition system: the acceptor, the stop signal, the
set of connections, and the pending operations of each. Its steps are completions in any
order, and every handler meets its own surroundings: files and provider answers may change
between any two steps. Its invariant and its shutdown theorems hold of every run. `Delivery`
ties each connection's reply to the bytes that the network delivered to it, by the events alone. `HttpServer`
has the classes whose handlers make these steps, and proves that they do. `LiveStore` runs the
web server and the data server together, on one store that every provider call acts on.

`Text` and `Decimal` hold what the others share. Bytes are `char`s and every statement about
byte strings is proved for all strings. Integers are unbounded; `HttpVersion`
states exactly when the parser's version arithmetic stays within a 32-bit `int`.

## Where the code differs from what one might expect

The model follows the code.

- A two-part `set` stores the row and then answers with the failure text
  (`Server/src/session.cpp:122-128`).
- `save` writes the file and reports failure in every case
  (`DataProvider/DBTextFile/src/DBTextFile.cpp:124`), so `commit` always answers with a failure.
- `delete` without an argument ends in the exception of `at(1)` (`Server/src/session.cpp:144`);
  `ThrownIff` proves that no other request does, and `DeleteExample` is that request.
- `get` with a name and a field reads past the end of a row that is shorter than the field's
  position (`DataProvider/DBTextFile/src/entry.cpp:23-27`). `ReadsPastEndIff` says exactly when,
  `PastEndExample` is an instance, and `WideStaysInBounds` gives a condition on the input under
  which it never happens.
- A four-part command `set/<name>/<first field>/<other name>` can give two rows one name, after
  which lookup sees only the first. `CommandRefines` and `DistinctThroughoutIff` prove that this is the only way;
  `ClashExample` and, for a whole session, `ClashInSession` are instances.
- A value that contains `:` (a four-part `set` can store one) is split when the file is read
  back and when the web handler splits the listing. `SaveThenRead` and `GetIsFaithful` hold
  exactly in the absence of such values; fields and listing survive in any case. Only that
  command can bring a colon into a store (`ColonFreeStep`); `ColonExample` and `ColonInReply` are
  an instance.
- The web handler pairs the values of an answer with the field names in order and reads past
  the end of its field list if there are more values (`HttpWrapper/src/rdb_handler.cpp:113-122`).
  This does not take a wide row: asking a store with two fields for a name that is not there is
  answered by an error text of three values (`NotFoundExample`). `OverrunIff` gives the exact
  condition, on store and request, for every path; `OverrunExample` is an instance with a row.
- The value of a single field is always shown under the name of the first field, whichever was
  asked for: `ValueIsRight`, with `WrongFieldExample`. An empty value, and a name or field that
  is not there, show the error text under the field names (`ValueIsRight`, `MissingIsShown`).
- The parser adds the code of a digit before it subtracts that of `0`, so a version field can
  leave `int` although its value fits: 2147483600 is too large already (`OverflowExample`).
  `VersionArithmetic` gives the exact condition on the input.
- A continuation line is appended without the blank that section 2.2 of RFC 1945 allows in its
  place, exactly one space is required after the colon, and more spaces become part of the value.
- If the data provider answers into a reply that already has content, Content-Length counts the
  new part only (`HttpWrapper/src/request_handler.cpp:54-57`). `HandledIsFramed` proves that this
  is the one case in which the framing is wrong; the server always starts from an empty reply,
  so every reply it sends is framed correctly (`RepliesAreFramed`).

## Model

| member | source | states |
|---|---|---|
| HttpRequest.Step | HttpWrapper/src/request_parser.cpp:29-282 | in every state that writes to the last header there is one, header names are never empty, and a decisive byte leaves state and request alone |
| HttpRequest.Run | HttpWrapper/src/request_parser.hpp:42-48 | undecided only after the whole buffer; a decision uses at least one byte; the machine's invariant is kept |
| HttpRequest.RequestParser.constructor | HttpWrapper/src/request_parser.cpp:17-20 | a new parser expects the method |
| HttpRequest.RequestParser.Reset | HttpWrapper/src/request_parser.cpp:22-25 | back to the state of a new parser |
| HttpRequest.RequestParser.Consume | HttpWrapper/src/request_parser.cpp:27-283 | state and request change in place as the step function says |
| HttpRequest.RequestParser.Parse | HttpWrapper/src/request_parser.hpp:38-49 | verdict, bytes used, state and request are those of the run over the buffer |
| HttpRequest.RunAppend | HttpWrapper/src/request_parser.hpp:42-48 | a decision is final; otherwise parsing resumes where it stopped |
| HttpRequest.ChunkIndependence | HttpWrapper/src/connection.cpp:38-63 | for every segmentation into reads: the same verdict, request and number of bytes as for the concatenation |
| HttpRequest.RunPrefix | HttpWrapper/src/request_parser.hpp:42-48 | the bytes used are the shortest decisive prefix |
| HttpGrammar.SameClasses | HttpWrapper/src/request_parser.cpp:285-307 | the parser's byte predicates are the grammar's classes, which list letters, digits, marks and code ranges |
| HttpSoundness.Sound | HttpWrapper/src/request_parser.cpp:27-283 | every accepted prefix is spelled by a syntax tree whose meaning is the request built |
| HttpSoundness.SectionSound | HttpWrapper/src/request_parser.cpp:186-279 | the same for the header section, from the state at the start of a header line |
| HttpCompleteness.Complete | HttpWrapper/src/request_parser.cpp:27-283 | every spelling of a syntax tree is accepted at its last byte and builds its meaning |
| HttpCompleteness.SectionComplete | HttpWrapper/src/request_parser.cpp:186-279 | the same for the header section |
| HttpTheorems.ParserIsGrammar | HttpWrapper/src/request_parser.cpp:27-283 | accepted after n bytes as request r if and only if those n bytes are in the grammar and mean r |
| HttpTheorems.GrammarIsPrefixFree | HttpWrapper/src/request_parser.cpp:278-279 | no request is a proper prefix of another, and one text has one meaning |
| HttpTheorems.EveryStateCompletes | HttpWrapper/src/request_parser.hpp:68-90 | each of the twenty states has a completing suffix, whatever request it holds |
| HttpTheorems.RejectsIffHopeless | HttpWrapper/src/request_parser.cpp:29-282 | rejected if and only if neither the buffer nor any extension is accepted |
| HttpTheorems.RejectsAtEarliestByte | HttpWrapper/src/request_parser.hpp:42-48 | rejection happens at the first byte that removes every accepted extension |
| HttpPrinter.ParseInvertsPrint | HttpWrapper/src/reply.cpp:106-114 | a printed header section is accepted exactly at its blank line with the same headers if and only if names are tokens and values have no control bytes |
| HttpPrinter.FieldsReprint | HttpWrapper/src/reply.cpp:106-113 | printing the headers of a field list gives its text back if and only if it has no continuation lines, and is shorter otherwise |
| HttpPrinter.ReprintIffPlain | HttpWrapper/src/request_parser.cpp:124-279 | printing an accepted request back gives the bytes read if and only if they have no continuation line and no leading zero in the version |
| HttpPrinter.PrintedRequestIsAccepted | HttpWrapper/src/request_parser.cpp:124-279 | an accepted request, printed back, is accepted as the same request |
| HttpVersion.VersionOfInput | HttpWrapper/src/request_parser.cpp:112-175 | for every input: the parser gets past `HTTP/` exactly if method, URI and `HTTP/` stand there, and the version fields are then the decimal values of the digits that follow, as far as they go |
| HttpVersion.VersionArithmetic | HttpWrapper/src/request_parser.cpp:124-170 | for every input, accepted or not: no step leaves the range of `int` if and only if both numbers written in it are at least 48 below its maximum |
| HttpVersion.RequestInRange | HttpWrapper/src/request_parser.cpp:124-170 | for a request of the grammar: if and only if both its numbers are |
| HttpVersion.NineDigitsAreSafe | HttpWrapper/src/request_parser.cpp:124-170 | no input whose two numbers have at most nine digits leaves the range of `int` |
| HttpVersion.OverflowExample | HttpWrapper/src/request_parser.cpp:143 | the version 2147483600 fits in an `int` and overflows while it is read |
| Decimal.ValueOfPrint | HttpWrapper/src/reply.cpp:248 | reading a printed number gives the number |
| Decimal.PrintOfValue | HttpWrapper/src/request_parser.cpp:124-170 | printing the value of a numeral gives it back if and only if it has no leading zero |
| Decimal.AccumulateValue | HttpWrapper/src/request_parser.cpp:143 | digit-by-digit accumulation from zero is the decimal value |
| UrlCoding.UrlDecode | HttpWrapper/src/request_handler.cpp:112-149 | the index loop succeeds exactly when the recursive decoding does, with the same output |
| UrlCoding.DecodeIffPieces | HttpWrapper/src/request_handler.cpp:116-148 | accepted with a given output if and only if the input is a sequence of plain bytes, `+` and readable escapes standing for that output |
| UrlCoding.OutputLength | HttpWrapper/src/request_handler.cpp:124-128 | the output is as long as the input minus two bytes per escape |
| UrlCoding.DecodeInvertsEncode | HttpWrapper/src/request_handler.cpp:112-149 | decoding inverts every percent-encoder, whichever permitted encoding it chooses for each byte |
| HttpReply.ToBuffers | HttpWrapper/src/reply.cpp:102-117 | the buffers, written one after the other, are the status line, the printed headers, the blank line and the content |
| HttpReply.ReadHead | HttpWrapper/src/reply.cpp:105-115 | a reader of the printed reply finds status line, headers and content |
| HttpReply.FramedIffLength | HttpWrapper/src/reply.cpp:102-117 | a reader recovers exactly the reply, with nothing left over, if and only if the first Content-Length is the content's length |
| HttpReply.StockIsFramed | HttpWrapper/src/reply.cpp:241-252 | every stock reply is framed correctly |
| HttpReply.HandleRequest | HttpWrapper/src/request_handler.cpp:29-110 | the reply filled in place, with its 512-byte read loop, is the specified one for every branch |
| HttpReply.HandledHeaders | HttpWrapper/src/request_handler.cpp:52-109 | every answer has printable headers and carries the length of what was added to the content |
| HttpReply.HandledIsFramed | HttpWrapper/src/request_handler.cpp:29-110 | every answer is framed correctly, except the provider's appended to content that was there before |
| HttpReply.OnlyFilesBelowRoot | HttpWrapper/src/request_handler.cpp:39-98 | the answer depends on no file but those at absolute paths without `..` below the document root |
| HttpReply.ProviderShows | HttpWrapper/src/request_handler.cpp:50-63 | two sites that differ in their provider give a request the same reply if and only if the providers answer it alike |
| HttpReply.IndexAddsNoDotDot | HttpWrapper/src/request_handler.cpp:76-80 | adding the index page does not undo the check for `..` |
| HttpAnswers.PathIff | HttpWrapper/src/request_handler.cpp:31-44 | a path is served if and only if the URI decodes to it, it starts with a slash and it has no two dots in a row |
| HttpAnswers.RefusedPath | HttpWrapper/src/request_handler.cpp:33-44 | every other URI is answered 400 |
| HttpAnswers.FileIsSent | HttpWrapper/src/request_handler.cpp:76-104 | the file at the document root and the path, with the index page after a final slash, is sent whole, with status 200 |
| HttpAnswers.FileIsReceived | HttpWrapper/src/request_handler.cpp:100-109 | a client that reads the reply has exactly the file |
| HttpAnswers.MissingFile | HttpWrapper/src/request_handler.cpp:92-98 | a file that cannot be opened is answered 404 |
| HttpAnswers.ExtensionIs | HttpWrapper/src/request_handler.cpp:82-89 | the extension is the text after the last dot of the last path segment |
| HttpAnswers.NoExtension | HttpWrapper/src/request_handler.cpp:82-89 | a last segment without a dot has none, whatever the directories are called |
| HttpAnswers.TypeOfFile | HttpWrapper/src/request_handler.cpp:108-109 | the type sent with a file is that of its extension |
| HttpAnswers.KnownTypes | HttpWrapper/src/mime_types.cpp:21-29 | the six known types |
| HttpAnswers.OtherTypes | HttpWrapper/src/mime_types.cpp:41 | all others are plain text |
| HttpAnswers.AnswerIsSent | HttpWrapper/src/request_handler.cpp:48-63 | the provider's answer is sent whole, as JSON for any origin, with status 200 |
| HttpAnswers.NoAnswer | HttpWrapper/src/request_handler.cpp:64-72 | a call that is not valid or fails is answered 400 |
| HttpAnswers.StatusLineShowsCode | HttpWrapper/src/reply.cpp:19-50 | the status line of every status carries its code |
| HttpAnswers.StockReplyIs | HttpWrapper/src/reply.cpp:241-252 | a stock reply has the status asked for, the type HTML and the length of its page |
| HttpAnswers.StockPage | HttpWrapper/src/reply.cpp:121-196 | the page of a stock reply is titled with the reason and repeats code and reason, except for 200 and 204 |
| Splitter.TokensCharacterised | DataProvider/DBTextFile/src/entry.cpp:15-20 | the tokens are the one non-empty list of separator-free strings that prints to the string, or to the string and its missing last separator |
| Splitter.TokensOfPrint | DataProvider/DBTextFile/src/entry.cpp:13-21 | splitting a printed non-empty list gives it back, empty last value included |
| Splitter.PrintOfTokens | DataProvider/DBTextFile/src/entry.cpp:52-56 | printing a split string gives the string if it ends in the separator, otherwise the string and one separator; tokens contain no separator |
| Splitter.PrintAfterSplitIsIdempotent | DataProvider/DBTextFile/src/entry.cpp:13-56 | printing after splitting is idempotent |
| Splitter.FirstToken | Server/src/session.cpp:118-121 | the name cut at the first colon is the first token, for every string |
| Splitter.TokensOfJoin | Server/src/session.cpp:61-64 | splitting joined values loses an empty last value and nothing else |
| Splitter.TokensCount | DataProvider/DBTextFile/src/entry.cpp:15-20 | one more token than separators, unless the string ends in one |
| Store.Entry.constructor | DataProvider/DBTextFile/src/entry.cpp:13-21 | the values are the tokens of the line |
| Store.Entry.SetEntry | DataProvider/DBTextFile/src/entry.cpp:29-33 | the values are replaced by those of the other entry |
| Store.Entry.SetValue | DataProvider/DBTextFile/src/entry.cpp:35-42 | one value is replaced if the index is in bounds, and nothing changes otherwise |
| Store.Entry.AsString | DataProvider/DBTextFile/src/entry.cpp:52-56 | every value followed by a colon |
| Store.DBTextFile.FindEntry | DataProvider/DBTextFile/src/DBTextFile.cpp:34-37 | the first row of that name, or the end |
| Store.DBTextFile.FindFieldIndex | DataProvider/DBTextFile/src/DBTextFile.cpp:44-47 | the first field of that name, or the end |
| Store.DBTextFile.Fields | DataProvider/DBTextFile/src/DBTextFile.cpp:17-23 | every field followed by a colon |
| Store.DBTextFile.GetAll | DataProvider/DBTextFile/src/DBTextFile.cpp:25-31 | one printed line per row, in order |
| Store.DBTextFile.GetOne | DataProvider/DBTextFile/src/DBTextFile.cpp:33-51 | a row, a value, nothing, or a read past the end of a row |
| Store.DBTextFile.Append | DataProvider/DBTextFile/src/DBTextFile.cpp:59 | a new row at the end, the others untouched |
| Store.DBTextFile.SetCsv | DataProvider/DBTextFile/src/DBTextFile.cpp:53-64 | replaces the first row of that name or appends one; always succeeds |
| Store.DBTextFile.SetOne | DataProvider/DBTextFile/src/DBTextFile.cpp:66-80 | replaces one value; fails without change if row, field or position is missing |
| Store.DBTextFile.EraseEntry | DataProvider/DBTextFile/src/DBTextFile.cpp:82-92 | removes the first row of that name; fails without change if there is none |
| Store.DBTextFile.AppendAll | DataProvider/DBTextFile/src/DBTextFile.cpp:107-109 | one row per line, behind the rows already there |
| Store.DBTextFile.ReadFile | DataProvider/DBTextFile/src/DBTextFile.cpp:94-111 | the first line replaces the fields, every other line adds a row |
| Store.DBTextFile.Write | DataProvider/DBTextFile/src/DBTextFile.cpp:118-122 | the printed fields, then every printed row, each on a line |
| Store.DBTextFile.SaveFile | DataProvider/DBTextFile/src/DBTextFile.cpp:113-125 | writes the file if it can be opened, and reports failure in every case |
| Session.Session.CopyFiltered | Server/src/session.cpp:54-57 | drops every carriage return and newline |
| Session.Session.BuildError | Server/src/session.cpp:75-80 | appends a text, cut at its first NUL, and a newline |
| Session.Session.DoWrite | Server/src/session.cpp:30-34 | ends the response with a newline |
| Session.Session.CopyLines | Server/src/session.cpp:99-102 | every line followed by a newline |
| Session.Session.AnswerGet | Server/src/session.cpp:95-114 | the `get` branch: response, or a read past the end |
| Session.Session.AnswerSetRow | Server/src/session.cpp:116-129 | two-part `set`: stores the row and answers with the failure text |
| Session.Session.AnswerSetField | Server/src/session.cpp:130-138 | four-part `set`: stores the value, and success is reported exactly if it was stored |
| Session.Session.AnswerSet | Server/src/session.cpp:115-142 | the `set` branch for every number of arguments |
| Session.Session.AnswerDelete | Server/src/session.cpp:143-153 | removes the row, and success is reported exactly if there was one |
| Session.Session.AnswerOther | Server/src/session.cpp:154-170 | `fields`, `commit` and unknown commands leave the rows alone |
| Session.Session.Answer | Server/src/session.cpp:95-170 | the branch for the first argument, with the exception of `delete` alone |
| Session.Session.ParseRequest | Server/src/session.cpp:52-172 | for every request: the new store, the outcome, the response bytes and the file |
| Commands.StripRemovesInserted | Server/src/session.cpp:54-57 | line ends inserted anywhere make no difference |
| Commands.ArgumentsRoundTrip | Server/src/session.cpp:54-85 | a slash and the arguments joined by slashes tokenise back to the arguments, except for an empty last one |
| Commands.ArgumentsWithoutSlash | Server/src/session.cpp:82-85 | the same without the leading slash if the first argument is not empty |
| Commands.SetFieldIsUnderstood | Server/src/session.cpp:130-131 | a four-part `set` line is understood as written |
| Commands.InvalidIff | Server/src/session.cpp:82-93 | only an empty line and a single slash are no valid query |
| Commands.ThrownIff | Server/src/session.cpp:143-144 | a request ends in the exception of `at(1)` if and only if its only argument is `delete` |
| Commands.DeleteExample | Server/src/session.cpp:143-144 | such a request |
| Protocol.CommandsByArguments | Server/src/session.cpp:95-170 | by the arguments of a line: exactly when it is a listing, a lookup, `fields`, `commit`, unknown or no query |
| Protocol.ChangesByArguments | Server/src/session.cpp:115-153 | by the arguments of a line: exactly when it is one of the commands that change the store, and with which operands |
| Protocol.LineOfWords | Server/src/session.cpp:54-85 | words joined by slashes, with line ends anywhere, are dispatched by these words |
| Protocol.CommitIsUnderstood | Server/src/session.cpp:158-159 | `/commit`, with line ends anywhere, is a commit |
| Protocol.DeleteIsUnderstood | Server/src/session.cpp:143-144 | `/delete/` and a name is a deletion of that name |
| Protocol.SetRowIsUnderstood | Server/src/session.cpp:115-122 | `/set/` and a row is a `set` of that row |
| Protocol.GetIsUnderstood | Server/src/session.cpp:104-105 | `/get/` and a name is a lookup of that name |
| Protocol.GetFieldIsUnderstood | Server/src/session.cpp:104-105 | with a field it is a lookup of that field |
| Protocol.SetRowAnswer | Server/src/session.cpp:116-129 | after a two-part `set` a lookup finds exactly that row, rows of other names are as before, and the answer is the failure text |
| Protocol.SetFieldSucceeds | Server/src/session.cpp:130-133 | if row, field and position exist, that value and no other changes, and the answer is "SUCCESS" |
| Protocol.SetFieldFails | Server/src/session.cpp:134-137 | otherwise nothing changes and the answer is the failure text |
| Protocol.SetThenGet | Server/src/session.cpp:104-133 | a value that was set is what the next `get` answers |
| Protocol.DeleteSucceeds | Server/src/session.cpp:144-146 | the first row of that name goes, the others keep their order, and the answer is "SUCCESS" |
| Protocol.DeleteFails | Server/src/session.cpp:147-152 | without such a row nothing changes and the answer is the failure text |
| Protocol.FailureText | Server/src/session.cpp:148-151 | that text has the whole name if it has no NUL |
| Protocol.FailureTextCut | Server/src/session.cpp:75-80 | and otherwise ends at its first NUL |
| Protocol.GetAnswer | Server/src/session.cpp:104-113 | a lookup answers the row, the value, or the error text with the command line |
| Protocol.OtherAnswers | Server/src/session.cpp:66-71 | the answers of `fields`, `commit`, malformed and unknown commands, which change nothing |
| Protocol.CommitPersists | DataProvider/DBTextFile/src/DBTextFile.cpp:94-125 | what `/commit` writes restores fields and listing, and the store if no value has a colon |
| Protocol.CommitInSession | Server/src/session.cpp:158-166 | after a session was sent `/commit`, its file holds the store, and the answer is the failure text |
| Protocol.ReadAnyFile | DataProvider/DBTextFile/src/DBTextFile.cpp:94-111 | any file, with or without a final newline: the first line is the field list, every other line, empty ones included, one row behind those already there |
| Persistence.ReachedIsClean | Server/src/session.cpp:54-57 | in every reachable store every row has a name, no value has a newline, and fields have neither colon nor newline |
| Persistence.LinesOfSaved | DataProvider/DBTextFile/src/DBTextFile.cpp:113-125 | the saved file splits into the printed fields and the printed rows |
| Persistence.ReparsedRow | DataProvider/DBTextFile/src/entry.cpp:13-21 | a row that is printed and split prints the same, and is the same if and only if no value has a colon |
| Persistence.ReadOfSaved | DataProvider/DBTextFile/src/DBTextFile.cpp:94-125 | reading a saved store restores the fields and each row, printed and split |
| Persistence.SaveThenRead | DataProvider/DBTextFile/src/DBTextFile.cpp:94-125 | for every reachable store: fields and listing survive `save` and `read`, and the whole store if and only if no value has a colon |
| Persistence.SaveIsStable | DataProvider/DBTextFile/src/DBTextFile.cpp:94-125 | saving again after a restart writes the same file |
| Persistence.ColonFreeStep | Server/src/session.cpp:115-142 | a command brings a colon into a store without one if and only if it is a four-part `set` that stores a value with a colon |
| Persistence.ReachedIsColonFree | Server/src/session.cpp:52-172 | a reachable store has no colon if no four-part `set` was sent one |
| Persistence.ReadsPastEndIff | DataProvider/DBTextFile/src/DBTextFile.cpp:33-51 | a command reads past the end of a row exactly if it asks for a known field of a known row that is too short |
| Persistence.WideStaysInBounds | DataProvider/DBTextFile/src/DBTextFile.cpp:33-80 | if loaded and set rows have a value per field, every reachable row has, and no command reads past an end |
| OrderedMap.DistinctIsPairwise | DataProvider/DBTextFile/src/DBTextFile.cpp:55-63 | distinct names, as the refinement uses them, are pairwise different names |
| OrderedMap.FindIsLookup | DataProvider/DBTextFile/src/DBTextFile.cpp:34-37 | first-match search agrees with lookup in the map |
| OrderedMap.SetRowRefines | DataProvider/DBTextFile/src/DBTextFile.cpp:53-64 | a two-part `set` keeps names distinct and is insertion or update of the map |
| OrderedMap.RenameRow | DataProvider/DBTextFile/src/DBTextFile.cpp:66-80 | a new name for a row keeps names distinct if and only if no row has it |
| OrderedMap.RemoveRow | DataProvider/DBTextFile/src/DBTextFile.cpp:82-92 | removing the row found removes exactly its key |
| OrderedMap.SetFieldRefines | DataProvider/DBTextFile/src/DBTextFile.cpp:66-80 | a four-part `set` keeps names distinct if and only if it is no clashing rename, and then acts on the map |
| OrderedMap.CommandRefines | Server/src/session.cpp:95-171 | the same for every command |
| OrderedMap.AnswersAgree | DataProvider/DBTextFile/src/DBTextFile.cpp:33-92 | what `get`, `set` and `delete` report is what the map says |
| OrderedMap.ListingAgrees | DataProvider/DBTextFile/src/DBTextFile.cpp:25-31 | the listing is the map's rows in the order of its keys |
| OrderedMap.RunRefines | Server/src/session.cpp:52-172 | over every run without a clashing rename the store is the insertion-ordered map, listing included |
| OrderedMap.DistinctThroughoutIff | Server/src/session.cpp:52-172 | names stay distinct after every prefix of a run if and only if it has no clashing rename |
| OrderedMap.ClashExample | DataProvider/DBTextFile/src/DBTextFile.cpp:66-80 | a rename that leaves two rows of one name |
| RdbHandler.ExecuteCmd | ClientLib/src/library.cpp:54-59 | the lines of the response |
| RdbHandler.ReadRecord | HttpWrapper/src/rdb_handler.cpp:113-122 | the loop over one row pairs values and field names, or runs out of names |
| RdbHandler.ReadRecords | HttpWrapper/src/rdb_handler.cpp:109-128 | the loop over the lines skips empty ones and pairs the others |
| RdbHandler.CopyPlain | HttpWrapper/src/rdb_handler.cpp:139-141 | every line followed by a carriage return and a newline |
| RdbHandler.FetchFields | HttpWrapper/src/rdb_handler.cpp:72-79 | fetches the field list and leaves store and file alone |
| RdbHandler.Parse | HttpWrapper/src/rdb_handler.cpp:51-144 | for every path: the decoded reply, a dropped connection, a read past the end of a row or of the field list; and the store and the file afterwards |
| EndToEnd.LinesOfListing | ClientLib/src/library.cpp:54-59 | the client recovers the listing, followed by one empty line |
| EndToEnd.FieldsOfAnswer | HttpWrapper/src/rdb_handler.cpp:72-79 | the handler recovers the field list exactly |
| EndToEnd.ReplySplitsAnswer | HttpWrapper/src/rdb_handler.cpp:101-137 | the reply to an answered `get` path is its answer, split into records under the store's own fields |
| EndToEnd.ListingReply | HttpWrapper/src/rdb_handler.cpp:106-137 | the reply to a listing is the printed and split rows under their field names, or an overrun if a row is too wide |
| EndToEnd.GetIsFaithful | HttpWrapper/src/rdb_handler.cpp:106-128 | for every reachable store: the web reply lists exactly its rows under its fields if and only if no value has a colon and no row is wider than the field list |
| EndToEnd.GetAsksForListing | Server/src/session.cpp:95-103 | the plain path asks for the listing |
| EndToEnd.NarrowRun | DataProvider/DBTextFile/src/DBTextFile.cpp:53-80 | rows stay no wider than the field list if no wider row is set |
| EndToEnd.FaithfulRequests | HttpWrapper/src/rdb_handler.cpp:106-128 | a condition on file and requests alone under which every listing is faithful |
| EndToEnd.WebGetIsFaithful | HttpWrapper/src/request_handler.cpp:47-66 | from the URI to the HTTP reply: the body is the JSON text of a reply that lists exactly the store's rows if and only if no value has a colon and no row is too wide; nothing is said of the body in case of an overrun |
| EndToEnd.RdbGetAsksForListing | HttpWrapper/src/rdb_handler.cpp:67 | the path `/rdb/get` asks for the listing |
| EndToEnd.FieldsReply | HttpWrapper/src/rdb_handler.cpp:81-99 | the web reply to `/fields` is the store's field list |
| EndToEnd.WebFieldsIsFaithful | HttpWrapper/src/request_handler.cpp:47-66 | from the URI to the HTTP reply: the body is the JSON text of exactly the store's field list |
| EndToEnd.CommandReply | HttpWrapper/src/rdb_handler.cpp:101-143 | the web reply to any other answered path is the data server's answer, byte for byte but for the line ends |
| EndToEnd.WebCommandIsAnswered | HttpWrapper/src/request_handler.cpp:47-66 | from the URI to the HTTP reply: the body is that text |
| WebGet.GetCommands | Server/src/session.cpp:82-105 | only listings, lookups and unknown commands start with `/get` |
| WebGet.RecordsNoneIff | HttpWrapper/src/rdb_handler.cpp:109-128 | the loop over the lines runs past the field list if and only if a line that is not empty splits into more values than there are fields |
| WebGet.OneLineReply | HttpWrapper/src/rdb_handler.cpp:106-137 | the reply to a lookup or an unknown command is one record, of the pieces of its answer under the first fields |
| WebGet.WidthIsTokens | DataProvider/DBTextFile/src/entry.cpp:13-21 | a printed row splits into one value per value and one per colon |
| WebGet.AnswerWidthIsTokens | Server/src/session.cpp:104-113 | how many values the answer to a lookup or an unknown command has: those of the row, of the value, or of the error text with the command line |
| WebGet.OverrunIff | HttpWrapper/src/rdb_handler.cpp:106-128 | for every clean store and every path: the handler runs past its field list if and only if the path starts with `/get`, is answered, and the answer, by store and request, has more values than there are fields |
| WebGet.RowIsRight | HttpWrapper/src/rdb_handler.cpp:113-123 | the web reply to a name is its row under the field names if and only if the row has no colon and is not too wide |
| WebGet.ValueIsRight | HttpWrapper/src/rdb_handler.cpp:113-123 | the web reply to a name and a field is that value under that field's name if and only if it is the first field and the value is not empty and has no colon |
| WebGet.MissingIsShown | Server/src/session.cpp:106-109 | a name or field that is not there gives a record of the error text, or an overrun, never an empty list |
| Examples.PastEndExample | DataProvider/DBTextFile/src/entry.cpp:23-27 | a file with a short row and a `get` of its missing value, which reads past the end |
| Examples.ColonExample | Server/src/session.cpp:130-131 | a file and a `set` after which `save` and `read` cut a value in two |
| Examples.ClashInSession | DataProvider/DBTextFile/src/DBTextFile.cpp:66-80 | a file and two requests after which two rows have one name |
| WebExamples.ColonInReply | HttpWrapper/src/rdb_handler.cpp:113-122 | the same file and `set`: the web reply cuts the value in two |
| WebExamples.OverrunExample | HttpWrapper/src/rdb_handler.cpp:114-121 | a file and a `set` after which the listing overruns |
| WebExamples.NotFoundOverruns | HttpWrapper/src/rdb_handler.cpp:114-121 | in every clean store with two fields, asking for a name that is not there overruns |
| WebExamples.NotFoundExample | HttpWrapper/src/rdb_handler.cpp:114-121 | a file and a request of that kind |
| WebExamples.WrongFieldExample | HttpWrapper/src/rdb_handler.cpp:114-121 | a file and a request whose answer is shown under another field's name |
| Lifecycle.ReadInv | HttpWrapper/src/connection.cpp:42-64 | at any site, the read handler keeps parser, request and reply in step with all bytes received and starts exactly one operation |
| Lifecycle.StepInv | HttpWrapper/src/connection_manager.cpp:20-37 | every step keeps the invariant: members are the connections with an open socket; each has exactly one operation outstanding, other connections at most one; aborted completions belong to closed sockets |
| Lifecycle.RunInv | HttpWrapper/src/server.cpp:49-91 | the invariant holds in every run, whatever files and provider do in between |
| Lifecycle.MembersAreServed | HttpWrapper/src/connection.cpp:38-91 | in every reachable state: members have exactly one operation outstanding, ignored completions belong to non-members, the reply written is the one the bytes called for where it was chosen, and an accept is outstanding while the acceptor is open |
| Lifecycle.RepliesAreFramed | HttpWrapper/src/connection.cpp:50-75 | in every run, every reply being written can be cut out of the byte stream by its reader |
| Lifecycle.StoppedStep | HttpWrapper/src/server.cpp:80-91 | after the stop handler every step keeps the set empty, starts no connection and decreases the measure |
| Lifecycle.ShutdownDrains | HttpWrapper/src/server.cpp:80-91 | every run after the stop handler is bounded by the measure at its start, starts nothing and leaves the set empty |
| Lifecycle.StoppedIsDrainedOrCanStep | HttpWrapper/src/server.cpp:49-56 | a stopped server has nothing left to do if and only if nothing is outstanding |
| Lifecycle.StartDoesNotMatter | HttpWrapper/src/request_parser.cpp:112-118 | the uninitialised version fields of a new request never show in a verdict or an accepted request |
| Lifecycle.DecisionStands | HttpWrapper/src/connection.cpp:50-59 | bytes sent after a decision do not change the reply chosen |
| Delivery.HandlerTakes | HttpWrapper/src/connection.cpp:46-48 | a handler takes all bytes of its read |
| Delivery.TracksStep | HttpWrapper/src/connection.cpp:42-70 | no step loses or invents a byte |
| Delivery.ReplyIsDecidedByDelivery | HttpWrapper/src/connection.cpp:38-63 | in every run: a connection has received what the events delivered to it, has no reply as long as that is undecided, and then has the reply it calls for where it was chosen |
| Delivery.ReplyIsDecidedByStream | HttpWrapper/src/connection.cpp:38-63 | in every run a connection's reply is a function of the byte stream delivered to it, however cut, and of the surroundings at the moment it was chosen |
| Delivery.SameStreamSameReply | HttpWrapper/src/connection.cpp:38-63 | in any two runs the same byte stream delivered in different pieces: if rejected, the reply 400; if accepted, the answer to the same request where the reply was chosen; and the same reply if the surroundings were the same |
| Delivery.AcceptMakesMember | HttpWrapper/src/server.cpp:70-76 | a successful accept makes a member with one read outstanding, leaves the others alone and starts the next accept |
| Delivery.AConnectionIsAnswered | HttpWrapper/src/connection.cpp:28-91 | from every state with an open acceptor there is a run in which a new connection is accepted, read, answered and closed, whatever decisive bytes it sends |
| HttpServer.Connection.constructor | HttpWrapper/src/connection.cpp:20-26 | a new connection with its own parser and request |
| HttpServer.Connection.Start | HttpWrapper/src/connection.cpp:28-31 | a read is added to what is outstanding |
| HttpServer.Connection.Stop | HttpWrapper/src/connection.cpp:33-36 | the socket is closed and every pending operation aborted, unless its result is queued |
| HttpServer.Connection.DoRead | HttpWrapper/src/connection.cpp:38-41 | a read is added to what is outstanding; on a closed socket it completes with an error |
| HttpServer.Connection.DoWrite | HttpWrapper/src/connection.cpp:72-75 | a write is added to what is outstanding; on a closed socket it completes with an error |
| HttpServer.Connection.HandleData | HttpWrapper/src/connection.cpp:44-64 | parse, then reply or read on |
| HttpServer.Connection.RunHandler | HttpWrapper/src/connection.cpp:42-90 | the whole completion handler, including when it asks the manager to stop the connection |
| HttpServer.ConnectionManager.Start | HttpWrapper/src/connection_manager.cpp:20-24 | the connection joins the set and reads |
| HttpServer.ConnectionManager.Stop | HttpWrapper/src/connection_manager.cpp:26-30 | the connection leaves the set and is closed |
| HttpServer.ConnectionManager.StopAll | HttpWrapper/src/connection_manager.cpp:32-37 | every member is closed and the set is empty |
| HttpServer.HttpServer.StartConnection | HttpWrapper/src/server.cpp:70-74 | a new connection joins, the others are untouched |
| HttpServer.HttpServer.AcceptHandler | HttpWrapper/src/server.cpp:61-77 | the accept step of the transition system, before and after the stop |
| HttpServer.HttpServer.StopHandler | HttpWrapper/src/server.cpp:82-90 | the stop step of the transition system |
| HttpServer.HttpServer.IoHandler | HttpWrapper/src/connection.cpp:42-90 | the completion step of the transition system, for every connection |
| LiveStore.ServerRuns | HttpWrapper/src/server.cpp:49-91 | the web server's part of a run of both servers is a run of the web server |
| LiveStore.StoreIsLog | Server/src/session.cpp:52-172 | the store is what the command lines of all provider calls and other clients, in their order, make of it |
| LiveStore.SiteIsRecorded | HttpWrapper/src/connection.cpp:50-59 | only the handler that decides records where the reply was chosen |
| LiveStore.ReplyKnowsItsStore | HttpWrapper/src/request_handler.cpp:48-62 | in every run of both servers, every reply was chosen in one step of its connection, at a site that answers from the store as it was then |
| LiveStore.WebGetShowsTheLiveStore | HttpWrapper/src/request_handler.cpp:48-62 | in every such run, the reply to a listing over the web lists the store that the commands before the deciding step have made of the file, faithful exactly if no value has a colon and no row is too wide |
| LiveStore.WebCommandActs | HttpWrapper/src/rdb_handler.cpp:67-104 | a handler about to answer `/rdb` and a command line gives that line, and no other, to the data server, and the store changes as the command says |
| LiveStore.OtherStepsLeaveTheStore | HttpWrapper/src/request_handler.cpp:47-73 | no other step of the web server touches the store |
| LiveStore.DirectRequestActs | Server/src/session.cpp:52-172 | another client's request changes the store as its command says and leaves the web server alone |
| LiveStore.StepOfDecision | HttpWrapper/src/connection.cpp:42-64 | in every run a decided connection was decided in one step, and nothing but its socket and operations has changed since |
| LiveStore.RequestActs | HttpWrapper/src/connection.cpp:50-54 | in every run a connection whose bytes ask for `/rdb` and a command line has given that line to the data server in the step that chose its reply |

## Left out

- The SQLite provider: a wrapper over SQL text and a library.
- Sockets, the event loop, signals, `fork`, `dlopen`, program options and log output: operations
  and their results are the events of `Lifecycle`. When the operating system reports a result is
  not a step of a class, so it exists in `Lifecycle` only.
- Shutting a socket down after a write, and the reference counts that keep a connection alive
  while a handler is pending: neither changes what the handlers do.
- The read loop of the data server's sessions, and its framing: one request per read and one
  answer per read of at most 8192 bytes are assumed; the code does not reassemble.
- Where the exception of `delete` without an argument ends up.
- RdbHandler.Parse: the JSON text and the path syntax of the property tree's `put`; the reply is kept
  as field names, records or plain text. A connection to the data
  server that cannot be opened is not modelled, and neither is what reading past the end yields.
- RdbHandler.ExecuteCmd: failing sockets, for the same reason.
- HttpReply.HandleRequest: files, the data provider and `isValidCall` are parameters of the site. So is
  what opening a path means, for instance that the path ends at a NUL. What a provider call changes in
  the store is stated by `RdbHandler.Parse` and `LiveStore.StoreIsLog`, not here.
- EndToEnd.WebGetIsFaithful: the JSON text of a reply is a parameter, and what an overrun yields is
  arbitrary.
- EndToEnd.WebFieldsIsFaithful: the JSON text of the field list is the same parameter.
- LiveStore.WebGetShowsTheLiveStore: a provider call is one step together with the handler that makes
  it, so requests of other clients come before or after it; in the code they may also come between
  fetching the field list, which no command changes, and the command itself.
- RdbHandler.ReadRecord: the pairs of field and value in order, not the tree that `put` builds of them.
- UrlCoding.UrlDecode: reading a pair of characters as a hexadecimal number is a parameter, of which the
  round trip assumes only that two hex digits are read as their value; what a stream makes of
  blanks, signs or `0x` is up to the parameter.
- Store.DBTextFile.ReadFile: how a file is opened, and `SaveFile`: what a failed open leaves behind; whether it
  can be opened is a parameter.
- HttpReply.HandledIsFramed: the status of a reply nobody has filled is uninitialised in the code and
  `Ok` in the model; every reply that is sent has been filled.
- HttpVersion.VersionArithmetic: what happens after the first overflow is undefined in C++; all other
  statements use unbounded integers for the version fields.
- The command-line client, the library search, the configuration files and the web page.
