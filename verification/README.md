# selective_trace, modelled and proved

`selective_trace` is a MySQL audit plugin. It watches the audit events of every
connection, decides for each finished statement whether the configured filters select it,
and writes a record of it to a JSON file or, through a background thread, to a table. This
project models that path from bytes to records and proves, for all inputs, all histories
and all interleavings, what the plugin promises about it.

`dafny verify dfyconfig.toml` checks everything.

## Layout

| files | component |
|---|---|
| `Bytes`, `ByteClasses`, `Numbers` | byte classes and what they are, byte by byte, splitting and joining, decimal printing and the 64-byte scratch buffer |
| `Masker`, `MaskerTheorems`, `MaskerClauses`, `MaskerForms`, `StarredClauses`, `SqlLiterals` | the credential masker: specification and code; partition and non-interference; what each SQL clause gives, and that nothing else is redacted; MySQL's literals against the masker's |
| `Rules`, `RulesCode`, `RulesTheorems`, `EntryForms`, `Connections` | the filter lists: meaning of an entry, the parsers and matchers, agreement of the two, and what each written form matches |
| `Commands`, `CommandTables`, `KeywordForms` | the SQL keyword lexer and the command classes |
| `Escaping`, `JsonNumber`, `JsonLog`, `JsonAssembly`, `JsonTheorems`, `SqlInsert` | the two record formats and independent decoders for them |
| `TableBuffer` | the fixed-size list of touched tables, and the ordered set it stands for |
| `Statement`, `StatementCode`, `StatementHistory`, `StatementTheorems`, `Listed`, `SchemaTracking` | the per-connection state machine: on values, as a class with its two buffers, and as a function of the event history |
| `Plugin`, `Isolation` | the state map and the audit callback; every interleaving of its critical sections |
| `Reload` | SET of the filter variables |
| `WriterSession`, `WriterMachine`, `WriterTheorems`, `WriterRuns`, `WriterCode` | the TABLE writer: its connection, its steps, their invariant, the promises over whole runs, and the code |
| `FileWriter` | the FILE writer's handle protocol |
| `EndToEnd`, `Leads`, `Secrets`, `SecretLeaks` | results that span the components: decoded records tell the history; where a secret can and cannot go |

## How to read it

* Bytes are `char`; no statement depends on codes being below 256. A C string is the
  sequence of its bytes before the NUL. Sets of command classes stand for the 32-bit masks;
  the bits that no command has are never looked at.
* The decoders are written from the standards, not from the encoders: numbers and strings of sections 6
  and 7 of RFC 8259, byte by byte, and string literals of section 9.1.1 of the MySQL Reference
  Manual with backslash escapes on.
* Code that scans or updates in place is a `method` or a class with a loop and
  invariants, proved equal to a specification function; the theorems are about those
  functions. `StatementState` keeps its two fixed arrays. Concurrency is a step function
  with one step for each critical section (and one for each INSERT); the theorems quantify
  over every sequence of steps.
* The clocks, the printed time stamp and duration, the answers of the server, of
  `pthread_create`, `fopen` and `fwrite` are parameters: the theorems hold for all of them.

## Where the code and its documentation disagree

The model follows the code.

* A comment in front of `USE` (`docs/USAGE.md:36-39`, `docs/DECISIONS.md:114-117`,
  `src/selective_trace_mysql.cc:650-654`) is said to leave the tracked schema unchanged and
  never to invent one. The tracker drops three bytes without looking at them, so a name
  that opens the comment becomes the schema (`CommentedUseNamesTheComment`). The three
  bytes are the keyword exactly when no comment precedes it
  (`KeywordIsDroppedUnlessCommented`), and a commented `USE` is ignored exactly when no
  name opens in the comment behind its first byte (`CommentedUseIsIgnoredExactlyWhen`).
* `SET PASSWORD FOR u = '...'` is not masked although `docs/USAGE.md:110` lists
  `SET PASSWORD` (`PasswordForIsNotMasked`), nor is `PASSWORD=X'12'` although the comment
  at `core/filter_engine.cc:516-524` names that form (`HexStringIsNotMasked`). What the
  masker takes for a literal, a quoted text with backslash escapes or 0x digits, is redacted
  exactly behind a trigger word and what its clause allows in between (`PasswordClause`,
  `PasswordWithoutLiteral`, the clauses of IDENTIFIED with their converses,
  `EveryLiteralHasItsClause`).
* MySQL reads a doubled quote as part of the literal, the masker as its end. Of
  `SET PASSWORD='ab''cd'` the half `cd` is logged (`AHalfMaskedPassword`,
  `DoubledQuoteShows`). The redacted text is the whole MySQL literal exactly when the byte
  behind it is not the same quote (`WholeExactlyWhen`).
* Masking covers the query text alone (`docs/USAGE.md:110`). The keyword and the session
  schema are read from the unmasked query, so a secret inside an open comment can spell the
  command, one glued to the first word shows in it, and one inside a backticked schema name
  or a schema set by protocol becomes the schema (`SecretLeaks`). Of the literals that the
  masker cuts out, the contents stay out of keyword and schema exactly when the event is
  discreet (`SecretsAreSafeExactlyWhen`), and no part of a MySQL literal shows exactly when
  moreover no quote is doubled (`SecretsStayOutExactlyWhen`).
* The number buffer holds 63 bytes, so a JSON line loses the last digits of `query_seq`
  exactly when the two numbers have more than 38 digits together (`WrittenLineDecodes`,
  `LongNumbersAreClipped`).
* Table names with commas cannot be told apart in the buffer: it splits back into the kept
  names exactly when none of them has one (`CommasBreakTheList`, `ACommaBreaksTheList`).
* `table_writer_shutdown` that finds no thread leaves a window before it deletes the queue.
  An enqueue in that window starts a thread whose queue is then deleted. A thread loses its
  queue exactly by such a deletion (`OrphanedExactlyByThatDeletion`,
  `ShutdownOrphansExactlyInTheWindow`, `AnOrphanedRun`). What it does afterwards is undefined;
  the theorems about the queue and the thread are for all runs up to that point (`Sane`),
  the one about the session's mode for all runs (`ModeComesFirst`).

## Model

| member | source | states |
|---|---|---|
| Masker.KwAt | core/filter_engine.cc:498-514 | finds the keyword at an index exactly when the letters match up to case and neither neighbour is a word byte |
| Masker.SkipBody | core/filter_engine.cc:543-553 | the body of a quoted literal ends at the first quote that is not behind a backslash, or with the query; always in bounds |
| Masker.MaskFollowingQuote | core/filter_engine.cc:525-577 | ends in bounds and outside a clause, with the text written so far and what the rest of the query yields still making up the masked query, and likewise for the flag |
| Masker.SeekConnector | core/filter_engine.cc:593-606 | the loop after IDENTIFIED ends in bounds, before the value, with the same balance of text written and text to come |
| Masker.SkipPasswordWord | core/filter_engine.cc:607-616 | the optional PASSWORD behind white space keeps that balance and ends where a value may stand |
| Masker.MaskSecrets | core/filter_engine.cc:579-640 | the output is the query's segments with the literal bodies redacted, and it reports true exactly when there is a literal |
| MaskerTheorems.MaskingSplitsTheQuery | core/filter_engine.cc:525-640 | every query is the concatenation of its segments; without a literal the output is the query; the output is at most n + 3*floor(n/9) bytes long for a query of n bytes |
| MaskerTheorems.MaskingIsNonInterfering | core/filter_engine.cc:498-640 | two-run theorem: replacing the bodies of any masked literals by any bodies of the same form leaves cut points, output and result unchanged |
| MaskerClauses.PasswordClause | core/filter_engine.cc:620-635 | after PASSWORD or OLD_PASSWORD and separators, a 0x literal or a quoted one, closed or running to the end, is redacted, whatever precedes and follows |
| MaskerClauses.PasswordWithoutLiteral | core/filter_engine.cc:620-635 | and when no literal stands there, scanning goes on with the keyword disarmed and nothing is redacted |
| MaskerClauses.PasswordForIsNotMasked | core/filter_engine.cc:628-635 | SET PASSWORD FOR with any account and password text in which no trigger word begins comes back unchanged, for exactly that notion of a trigger word |
| MaskerClauses.AnUnmaskedPassword | core/filter_engine.cc:628-635 | one such statement |
| MaskerClauses.HexStringIsNotMasked | core/filter_engine.cc:563-576 | SET PASSWORD with an X'..' literal of any digits comes back unchanged |
| MaskerClauses.IdentifiedWords | core/filter_engine.cc:589-606 | IDENTIFIED, any gap without connector or literal, and a connector are copied, whatever precedes |
| MaskerClauses.ValueIsRedacted | core/filter_engine.cc:607-619 | behind the connector and any separators, also none before a quote, a literal is cut out |
| MaskerClauses.PasswordValueIsRedacted | core/filter_engine.cc:607-619 | also with the optional PASSWORD in between |
| MaskerClauses.IdentifiedByClause | core/filter_engine.cc:588-619 | the whole masked query of IDENTIFIED .. BY (AS, USING) and a literal: all copied but the body |
| MaskerClauses.IdentifiedByPasswordClause | core/filter_engine.cc:588-619 | the same with PASSWORD before the literal |
| MaskerClauses.IdentifiedLiteralClause | core/filter_engine.cc:600-619 | the same for a literal with no connector in front |
| MaskerClauses.IdentifiedWithoutValue | core/filter_engine.cc:593-606 | converse: with neither connector nor literal behind IDENTIFIED the query comes back unchanged |
| MaskerClauses.IdentifiedWithoutLiteral | core/filter_engine.cc:593-619 | converse: with a connector and no literal behind it the clause ends and nothing of it is redacted |
| MaskerClauses.IdentifiedPasswordWithoutLiteral | core/filter_engine.cc:593-619 | converse: likewise behind the optional PASSWORD |
| MaskerForms.EveryLiteralHasItsClause | core/filter_engine.cc:579-640 | for every query, each redacted literal stands behind a trigger word in one of these forms, and the text behind it is read afresh |
| MaskerForms.OtherWordsAreCopied | core/filter_engine.cc:498-514 | a word is a trigger as a whole or not at all: any other word, one that merely begins or ends with a trigger included, is copied and arms nothing |
| ByteClasses.Classes | core/filter_engine.cc:28-31 | for every byte, membership in each class of the scanners, against the classes spelled out byte by byte |
| ByteClasses.Folding | core/filter_engine.cc:23-26 | folding pairs the 26 letters and leaves every other byte alone |
| StarredClauses.PasswordIsStarred | core/filter_engine.cc:525-635 | PASSWORD, any of space, tab, CR, LF, ( and =, and a text in either quote with any bytes and escapes in it: three stars stand in its place |
| StarredClauses.HashIsStarred | core/filter_engine.cc:563-635 | the same for digits behind 0x, which become 0x*** |
| StarredClauses.IdentifiedIsStarred | core/filter_engine.cc:588-619 | the same behind IDENTIFIED and BY, AS or USING |
| StarredClauses.UnitsAreBody | core/filter_engine.cc:543-553 | every text of bytes and backslash pairs without a bare quote is a closed body |
| StarredClauses.FunctionCallIsStarred | core/filter_engine.cc:628-635 | SELECT PASSWORD('..') and PASSWORD("..") for every password |
| StarredClauses.AssignmentIsStarred | core/filter_engine.cc:628-635 | SET PASSWORD = '..' for every password |
| StarredClauses.CreateUserIsStarred | core/filter_engine.cc:588-619 | CREATE USER .. IDENTIFIED BY '..' for every password |
| SqlLiterals.SqlStringEnds | core/filter_engine.cc:676-692 | the measure of a MySQL literal ends where the decoder of literals stops |
| SqlLiterals.WholeExactlyWhen | core/filter_engine.cc:537-561 | a redacted text is the whole MySQL literal exactly when the byte behind it is not the same quote |
| SqlLiterals.PasswordLiteralIsHidden | core/filter_engine.cc:620-635 | a PASSWORD clause hides its literal, as MySQL reads it, exactly then |
| SqlLiterals.IdentifiedLiteralIsHidden | core/filter_engine.cc:588-619 | so does an IDENTIFIED clause |
| SqlLiterals.DoubledQuoteShows | core/filter_engine.cc:537-561 | of a literal with a doubled quote everything behind the first half is copied unless a trigger word begins there |
| SqlLiterals.AHalfMaskedPassword | core/filter_engine.cc:537-561 | one password of which half is logged |
| RulesCode.SplitCsv | core/filter_engine.cc:164-206 | the entries are the comma-separated fields, trimmed, in lower case, empty ones left out; an absent list has none |
| RulesCode.ParseCmdQualifier | core/filter_engine.cc:92-139 | the union of the named command classes, or a failure when any name is unknown |
| RulesCode.SplitCmdQualifier | core/filter_engine.cc:145-160 | the name before the first colon and the classes after it; all classes without a colon |
| RulesCode.SchemaEntry | core/filter_engine.cc:216-235 | accepts exactly one dot-free, non-empty name with optional backticks |
| RulesCode.TableEntry | core/filter_engine.cc:237-271 | accepts exactly schema.table and schema.* with one dot and non-empty parts |
| RulesCode.CiEqQualified | core/filter_engine.cc:45-61 | the piecewise comparison equals comparing with the joined lower-case name |
| RulesCode.AddEntry | core/filter_engine.cc:64-86 | merges into the entry of that name, or appends one |
| RulesCode.ParseFilterLists | core/filter_engine.cc:208-277 | on success the merged lists of all entries with the connections kept, on failure the first bad entry and the old rules |
| RulesCode.MatchSchemaCode | core/filter_engine.cc:325-337 | the union of the masks of all schema and wildcard entries of that name up to case |
| RulesCode.MatchTableCode | core/filter_engine.cc:339-352 | the union of the masks of the wildcard entries of the schema and of the table entries of the pair |
| RulesTheorems.ParseThenMatch | core/filter_engine.cc:45-352 | a command is allowed exactly when some raw entry names the schema or the table up to case and lists it: the merged index equals the union over all entries |
| RulesTheorems.OrderNeverMatters | core/filter_engine.cc:64-352 | lists with the same entries parse alike and match alike, whatever their order and duplicates |
| RulesTheorems.JoinedNames | core/filter_engine.cc:45-61 | with one dot per entry, equality of the joined names is equality of both parts |
| RulesTheorems.RulesOfEntries | core/filter_engine.cc:208-277 | a list parses exactly when every entry means something, and yields the rules of its entries |
| RulesTheorems.ParseIsFieldwise | core/filter_engine.cc:208-277 | both lists parse together exactly when each does alone, and the result is their fields side by side |
| EntryForms.TableEntryMeans | core/filter_engine.cc:237-271 | schema.table, either part in backticks or bare, means that table of that schema, and schema.* the whole schema, for all commands |
| EntryForms.QualifiedTableEntryMeans | core/filter_engine.cc:237-271 | with a colon it means the same for the commands named behind it |
| EntryForms.SchemaEntryMeans | core/filter_engine.cc:216-235 | a bare or backticked name means that schema |
| EntryForms.QualifiedSchemaEntryMeans | core/filter_engine.cc:216-235 | with a colon, for the commands named behind it |
| EntryForms.QualifiersMean | core/filter_engine.cc:92-139 | every name between the bars must be known, and the commands are those of all of them |
| EntryForms.NoTableEntries | core/filter_engine.cc:244-255 | no dot, an empty side or two dots is no entry |
| EntryForms.NoSchemaEntry | core/filter_engine.cc:227-235 | a table is no entry of the list of schemas |
| EntryForms.TokensConcat | core/filter_engine.cc:186-206 | the entries of a list are those between its commas |
| EntryForms.OneTableEntry | core/filter_engine.cc:186-352 | from bytes to matches: a list with one entry, in any case and with white space around it, matches exactly that table, or with * exactly that schema |
| EntryForms.OneSchemaEntry | core/filter_engine.cc:186-352 | likewise for the list of schemas |
| Connections.ParseId | core/filter_engine.cc:286-303 | digits evaluate to their decimal value modulo 2^64; anything else is rejected |
| Connections.DecimalMeans | core/filter_engine.cc:294-303 | a digit more means ten times the number and the digit's own value |
| Connections.ParseConnectionList | core/filter_engine.cc:279-317 | the increasing, duplicate-free ids of all entries, or the first bad entry with the old list unchanged |
| Connections.MatchConnectionCode | core/filter_engine.cc:319-323 | binary search finds exactly the listed ids |
| Connections.ConnectionsAgree | core/filter_engine.cc:279-323 | a list parses exactly when all entries are decimal, and an id is listed exactly when it is some entry's value modulo 2^64 |
| Commands.SkipTrivia | core/filter_engine.cc:385-432 | stops, in bounds, behind white space, parentheses and comments |
| Commands.ExtractCommand | core/filter_engine.cc:377-482 | the keyword of the statement behind the trivia, clipped to the buffer; START TRANSACTION gives BEGIN; nothing readable gives OTHER |
| Commands.TriviaIsTransparent | core/filter_engine.cc:385-432 | any sequence of blanks, parentheses, closed comments and line comments in front changes nothing |
| Commands.ExecutableCommentIsTransparent | core/filter_engine.cc:392-410 | nor does the opening of an executable comment with its version digits |
| Commands.KeywordShape | core/filter_engine.cc:434-482 | the result has only A-Z, 0-9 and _, at most min(16, size-1) bytes, and is non-empty when size >= 2 |
| Commands.CommandBit | core/filter_engine.cc:354-375 | the class of the first table row with that keyword; Other for unknown ones |
| CommandTables.QualifiersAreTheirKeywords | core/filter_engine.cc:92-110 | each qualifier token lists exactly the class of the statements that begin with its own word |
| CommandTables.GroupsAreTheirKeywords | core/filter_engine.cc:92-110 | dml, ddl, tcl and all are the classes of the words they stand for |
| CommandTables.ClassesDiffer | core/filter_engine.cc:354-375 | different words have different classes, but for WITH, which counts as SELECT |
| CommandTables.OtherWords | core/filter_engine.cc:354-375 | every word outside the table is classified as other |
| CommandTables.OtherTokens | core/filter_engine.cc:92-139 | every other qualifier is unknown |
| KeywordForms.KeywordIsTheWord | core/filter_engine.cc:434-445 | behind any trivia the keyword is the first word in upper case, clipped to sixteen bytes and the buffer |
| KeywordForms.StartTransaction | core/filter_engine.cc:447-472 | START TRANSACTION in any case and spacing gives BEGIN |
| KeywordForms.OtherStart | core/filter_engine.cc:447-472 | any other START stays START |
| KeywordForms.NoWordIsOther | core/filter_engine.cc:474-482 | a statement that begins with no word gives OTHER |
| Escaping.JsonEscapeAppend | core/filter_engine.cc:647-674 | appends the escaped bytes, one after the other |
| Escaping.JsonRoundTrip | core/filter_engine.cc:647-674 | for all bytes, reading an escaped string up to its closing quote gives it back and leaves what follows, under a decoder that refuses raw control bytes and ends at the first bare quote; no newline appears |
| Escaping.SqlEscapeAppend | core/filter_engine.cc:676-692 | appends the escaped bytes, one after the other |
| Escaping.SqlRoundTrip | core/filter_engine.cc:676-692 | for all bytes, reading an escaped literal under the MySQL rules gives it back |
| TableBuffer.BufferRefinesOrderedSet | src/selective_trace_mysql.cc:729-775 | for all comma-free names the buffer is the join of the ordered set of names kept in first-fit order; it stays below 3968 bytes; truncation is flagged exactly when a recorded name is missing, and a missing name can never fit later |
| TableBuffer.BufferHolds | src/selective_trace_mysql.cc:729-775 | in bytes: the list stays below 3968, and a name is missing exactly because it would not have fitted |
| TableBuffer.CommasBreakTheList | src/selective_trace_mysql.cc:729-775 | for any non-empty names, splitting the buffer gives the kept names back exactly when none of them has a comma |
| TableBuffer.ACommaBreaksTheList | src/selective_trace_mysql.cc:926-943 | one table whose name has a comma comes back as two |
| Numbers.DecPrefix | src/selective_trace_mysql.cc:913-916 | clipping a printed number divides it by ten for each digit lost |
| JsonNumber.NumberStops | src/selective_trace_mysql.cc:913-916 | a number of section 6 of RFC 8259 is read up to what may follow a value, and no further |
| JsonNumber.DecimalsAreNumbers | src/selective_trace_mysql.cc:913-916 | what %lu, %llu and %d print is such a number |
| JsonNumber.DurationIsNumber | src/selective_trace_mysql.cc:949-955 | and so is what %.3f prints for a duration |
| JsonLog.MembersRead | src/selective_trace_mysql.cc:909-959 | the decoder reads any list of members back from its text |
| JsonAssembly.AppendTables | src/selective_trace_mysql.cc:926-945 | the loop over the buffer writes the array of its entries |
| JsonAssembly.AssembleJson | src/selective_trace_mysql.cc:907-959 | the line is the standard's text of the record that the scratch buffer lets through, and a newline |
| JsonTheorems.LineDecodes | src/selective_trace_mysql.cc:907-959 | a line decodes to exactly the fields of its record, tables included |
| JsonTheorems.WrittenLineDecodes | src/selective_trace_mysql.cc:880-916 | the written line decodes to the record exactly when the digits of the two numbers total at most 38 |
| JsonTheorems.LongNumbersAreClipped | src/selective_trace_mysql.cc:880-916 | two twenty-digit numbers are a case where it does not |
| JsonTheorems.LineHasNoNewline | src/selective_trace_mysql.cc:907-959 | no line has an inner newline |
| JsonTheorems.LogDecodes | src/selective_trace_mysql.cc:907-963 | splitting a log of any records at newlines and decoding every line recovers all fields in order |
| SqlInsert.AssembleInsert | src/selective_trace_mysql.cc:971-1007 | the statement is the ten columns of the record as literals, although the command goes in unescaped and numbers pass a 64-byte buffer |
| SqlInsert.LiteralsRead | src/selective_trace_mysql.cc:971-1007 | the lexer reads any list of values back from its text |
| SqlInsert.InsertDecodes | src/selective_trace_mysql.cc:971-1007 | for all user, schema, table-list and query bytes the statement lexes, head included, to one row for mysql.selective_trace_events with ten columns and ten values |
| SqlInsert.ColumnsDecode | src/selective_trace_mysql.cc:971-1007 | each of the ten columns, looked up by its name in the lexed statement, holds its own field of the record |
| SqlInsert.InsertIsInjective | src/selective_trace_mysql.cc:971-1007 | equal statements come from records that agree on every column |
| StatementCode.Listed | src/selective_trace_mysql.cc:739-759 | the scan over the buffer finds a name exactly when it is one of the comma-separated entries |
| StatementCode.StatementState.SetCurrentDb | src/selective_trace_mysql.cc:601-608 | stores the first 191 bytes in place and changes nothing else |
| StatementCode.StatementState.TrackCurrentDb | src/selective_trace_mysql.cc:628-687 | the schema becomes the one that Init DB or USE names, and stays as it was otherwise |
| StatementCode.StatementState.BeginStatement | src/selective_trace_mysql.cc:695-704 | a fresh statement with the next sequence number modulo 2^64; the schema stays |
| StatementCode.StatementState.AddTable | src/selective_trace_mysql.cc:729-775 | the in-place buffer takes one step of the abstract list and nothing else changes |
| StatementCode.StatementState.HandleTableAccess | src/selective_trace_mysql.cc:777-811 | records the table and adds its masks, unless it is a statistics table no rule names |
| StatementCode.StatementState.Permits | src/selective_trace_mysql.cc:832-853 | the three filters in the handler's order amount to their disjunction |
| StatementCode.StatementState.HandleStatus | src/selective_trace_mysql.cc:813-1022 | the new state and the exact bytes handed to the writer, for query and other STATUS events |
| StatementCode.IsInternalStatsTable | src/selective_trace_mysql.cc:712-727 | recognises exactly the two statistics tables up to case |
| SchemaTracking.UseNameIsTracked | src/selective_trace_mysql.cc:641-687 | behind any white space and parentheses, USE in any letter case and a bare name make that name the schema |
| SchemaTracking.UseQuotedNameIsTracked | src/selective_trace_mysql.cc:641-687 | likewise for a name in backticks |
| SchemaTracking.StoredName | src/selective_trace_mysql.cc:601-608 | at most 191 bytes of a name are stored |
| SchemaTracking.KeywordIsDroppedUnlessCommented | src/selective_trace_mysql.cc:650-662 | the three bytes dropped are the keyword exactly when no comment precedes it |
| SchemaTracking.UseNamesNothingExactlyWhen | src/selective_trace_mysql.cc:650-687 | a USE statement leaves the schema as it was exactly when no name opens behind the three bytes and white space |
| SchemaTracking.CommentedUseIsIgnoredExactlyWhen | src/selective_trace_mysql.cc:650-687 | a USE behind a block comment is ignored, as documented, exactly when no name opens in the comment behind its first byte and white space |
| SchemaTracking.CommentedUseNamesTheComment | src/selective_trace_mysql.cc:650-687 | in front of any USE statement, a name that opens a comment becomes the schema |
| StatementHistory.StateTellsHistory | src/selective_trace_mysql.cc:695-811 | after every run, mask, buffer, start clock and statement flag are what the events since the last LOG, query STATUS or disconnect say, each access under the rules active then |
| StatementHistory.SchemaIsLastNamed | src/selective_trace_mysql.cc:628-687 | the tracked schema is the last one named since the connection was made |
| StatementTheorems.SequenceCounts | src/selective_trace_mysql.cc:695-704 | the sequence number is the number of statements begun, modulo 2^64 |
| StatementTheorems.TracedExactlyWhenSelected | src/selective_trace_mysql.cc:813-1022 | a query STATUS outputs exactly when its command is allowed by a table accessed since the boundary, or its connection is listed, or the session schema allows it, and the duration test passes; the record is then the one the history describes |
| StatementTheorems.TestIsInNanoseconds | src/selective_trace_mysql.cc:856-862 | the duration test passes exactly when at least 1000000 nanoseconds per millisecond lie between the two clock readings, wrapped or not |
| Listed.TracedExactlyWhenListed | src/selective_trace_mysql.cc:777-1022 | the same in the user's terms: a Query or Execute STATUS outputs exactly when some raw entry names the schema or a table touched since the boundary, the session schema or the connection, and lists the class of the command, and it took the nanoseconds asked for; statistics tables count when an entry names them; tables are recorded as schema.table |
| Listed.NothingElseOutputs | src/selective_trace_mysql.cc:821-822 | nothing but a Query or Execute STATUS outputs anything |
| StatementTheorems.TablesAreTheOrderedSet | src/selective_trace_mysql.cc:729-811 | the record's tables are the ordered set of the names accessed since the boundary |
| StatementTheorems.EmptyRulesOutputNothing | src/selective_trace_mysql.cc:832-862 | a history under empty rules outputs nothing |
| StatementTheorems.NothingLeaksPastALog | src/selective_trace_mysql.cc:689-704 | two different pasts agree from a LOG on, but for the schema and the statement count |
| Plugin.Tracer.GetState | src/selective_trace_mysql.cc:192-214 | finds or inserts an all-zero state and changes no connection |
| Plugin.Tracer.ForgetState | src/selective_trace_mysql.cc:216-224 | removes one state and changes no other |
| Plugin.Tracer.Notify | src/selective_trace_mysql.cc:1024-1092 | only the connection's own state changes, as the event says; disconnects count while tracing is off; the writer's own events are ignored |
| Isolation.ConnectionsAreIsolated | src/selective_trace_mysql.cc:192-224 | in every interleaving a connection ends with the state and the outputs of its own steps and the configuration changes alone |
| Isolation.EveryRunIsLinear | src/selective_trace_mysql.cc:192-224 | in every interleaving its state and outputs are those of its events handled one by one, and a handler's state is always still in the map |
| Isolation.CallbackIsNoticed | src/selective_trace_mysql.cc:1054-1092 | a callback that nothing interrupts does to its connection what the audit callback does: nothing while tracing is off but for a disconnect, and otherwise what the event says |
| Isolation.EmptyRulesAreSilent | src/selective_trace_mysql.cc:1024-1092 | while the rules stay empty, no interleaving outputs anything |
| Reload.CheckFilterList | src/selective_trace_mysql.cc:263-340 | accepts exactly the texts that parse on their own, and NULL |
| Reload.FilterConfig.RebuildRules | src/selective_trace_mysql.cc:342-364 | installs the parse of all three texts, or fails and keeps the old rules |
| Reload.FilterConfig.UpdateFilterList | src/selective_trace_mysql.cc:369-397 | for a checked value the rebuild does not fail |
| Reload.FilterConfig.SetVariable | src/selective_trace_mysql.cc:263-397 | a SET is rejected without any change, or stored and active |
| Reload.FilterConfig.Init | src/selective_trace_mysql.cc:1121-1143 | the start fails exactly when the configured texts do not parse |
| Reload.ParseAllIsFieldwise | src/selective_trace_mysql.cc:342-364 | the three texts parse together exactly when each passes its own check |
| Reload.RulesAreAlwaysTheParse | src/selective_trace_mysql.cc:263-397 | over every interleaving of checks and updates the rules in force are the parse of the three stored texts |
| Reload.ActiveRulesMean | src/selective_trace_mysql.cc:342-397 | and they match exactly what the entries of those texts say |
| WriterSession.RecyclesArePeriodic | src/writer_recycle_policy.h:93-103 | n inserts give exactly one recycle for every threshold of them |
| WriterSession.WriterRecyclePolicy.NoteInsert | src/writer_recycle_policy.h:93-103 | one step of the policy |
| WriterSession.WriterRecyclePolicy.NoteConnectionReset | src/writer_recycle_policy.h:114-120 | restarts the count and keeps the total |
| WriterSession.KeptAttempt | src/log_writer_table_mysql.cc:333-412 | whatever the server answers, one event keeps the session invariant and counts as one success or one failure |
| WriterSession.AttemptReports | src/log_writer_table_mysql.cc:333-373 | exactly which INSERTs go out for an event: none without a connection, a second one exactly behind 1146, 1049 and, on a new connection, 2006 and 2013; the event is a success exactly when one of them was accepted |
| WriterSession.SessionsAreSafe | src/log_writer_table_mysql.cc:259-412 | so does any number of events |
| WriterSession.NoConnectionCarriesMore | src/writer_recycle_policy.h:93-120 | no connection carries more events than the threshold |
| WriterCode.Connection.Close | src/log_writer_table_mysql.cc:223-230 | closes the handle once |
| WriterCode.Connection.Ensure | src/log_writer_table_mysql.cc:259-330 | every failure on the way leaves no handle; success leaves one with its mode set |
| WriterCode.Connection.Run | src/log_writer_table_mysql.cc:333-373 | one send, one retry where the error calls for it, one failure counted otherwise |
| WriterCode.Connection.DrainBatch | src/log_writer_table_mysql.cc:394-413 | the inner loop attempts every event of the batch once, in order |
| WriterCode.TableWriter.IsSelf | src/log_writer_table_mysql.cc:136-143 | true exactly for the recorded writer thread while it is running |
| WriterCode.TableWriter.StartThread | src/log_writer_table_mysql.cc:430-442 | starts a thread unless one is running; a failed start clears only the stop flag |
| WriterCode.TableWriter.EnqueueEvent | src/log_writer_table_mysql.cc:486-511 | accepts an event, at the end of the queue, exactly when there is a queue with fewer than 10000 events and a thread to serve it; a full queue counts one drop |
| WriterCode.TableWriter.ShutdownBegin | src/log_writer_table_mysql.cc:461-474 | requests the stop and signals exactly when a thread is running |
| WriterCode.TableWriter.ShutdownEnd | src/log_writer_table_mysql.cc:479-483 | deletes the queue with what is left in it |
| WriterCode.TableWriter.TakeBatch | src/log_writer_table_mysql.cc:387-392 | waits exactly when the queue is empty and no stop is requested, and takes the whole queue otherwise |
| WriterTheorems.EveryRunKeeps | src/log_writer_table_mysql.cc:333-511 | the invariant of the writer holds in every run in which no thread loses its queue |
| WriterRuns.AcceptedIsConserved | src/log_writer_table_mysql.cc:333-511 | in every run the accepted events are, in order, those settled, the rest of the batch and the queue; attempts are successes plus counted failures |
| WriterRuns.SuccessesAreReal | src/log_writer_table_mysql.cc:333-412 | in every run the n-th attempted event is settled as inserted exactly when the server accepted an INSERT of it |
| WriterRuns.JoinMeansAttempted | src/log_writer_table_mysql.cc:385-511 | when the join returns, everything accepted before the stop request has been attempted, and at most 20000 attempts followed the request |
| WriterRuns.WakeupsAndBounds | src/log_writer_table_mysql.cc:385-511 | a waiting thread that was not signalled has an empty queue and no stop request; queue and batch hold at most 20000 events |
| WriterRuns.NoSelfLogging | src/log_writer_table_mysql.cc:136-143 | at most one writer thread, recognised as the writer all its life; no event of its own is ever accepted |
| WriterRuns.ModeComesFirst | src/log_writer_table_mysql.cc:259-412 | in every run without exception, each INSERT goes over a connection on which the mode was set before |
| WriterRuns.HandlesAreDisciplined | src/log_writer_table_mysql.cc:223-412 | in every run each INSERT goes over a handle that is open, nothing is opened while one is, and opens minus closes is one exactly when the handle is set |
| WriterRuns.ConnectionsAreRecycled | src/log_writer_table_mysql.cc:375-412 | no connection carries more than threshold events, through recycles, retries, failed openings and restarts |
| WriterRuns.ShutdownFinishes | src/log_writer_table_mysql.cc:385-427 | while the shutdown waits for the thread, a step it waits for is always possible, each one lowers a measure of at most 20004 and nothing raises it, so the join returns |
| WriterRuns.OrphanedExactlyByThatDeletion | src/log_writer_table_mysql.cc:479-483 | a thread loses its queue exactly by a deletion, after a shutdown that found no thread, that meets a running one |
| WriterRuns.ShutdownOrphansExactlyInTheWindow | src/log_writer_table_mysql.cc:461-484 | that happens exactly when an enqueue started a thread between the two sections |
| WriterRuns.AnOrphanedRun | src/log_writer_table_mysql.cc:461-511 | such a run exists |
| FileWriter.LogFile.Open | src/log_writer_file_mysql.cc:62-82 | opens, or counts one failure, or does nothing without a path |
| FileWriter.LogFile.ReopenFile | src/log_writer_file_mysql.cc:84-96 | closes the old handle before it opens |
| FileWriter.LogFile.CloseFile | src/log_writer_file_mysql.cc:98-107 | closes the handle once |
| FileWriter.LogFile.WriteUpgraded | src/log_writer_file_mysql.cc:115-134 | opens unless another thread did, writes once, counts a short write |
| FileWriter.HandlesAreDisciplined | src/log_writer_file_mysql.cc:62-135 | in every interleaving each write and close meets the one open handle, each open meets none, opens minus closes is one exactly when the handle is set, and every refused open and short write is counted once |
| FileWriter.WritersAreProtected | src/log_writer_file_mysql.cc:109-135 | a thread about to write holds a lock and an open handle, and no other thread can be closing it |
| FileWriter.SomeThreadCanMove | src/log_writer_file_mysql.cc:109-135 | while any call is unfinished, some thread in the middle of a call can make its next step: giving up the read lock before taking the write lock never deadlocks |
| EndToEnd.FileLineTellsTheHistory | src/selective_trace_mysql.cc:777-963 | a line of the file, decoded, gives the masked query, the ordered set of tables touched since the boundary, the statement count and the event's fields |
| EndToEnd.TableInsertTellsTheHistory | src/selective_trace_mysql.cc:777-1007 | an INSERT handed to the writer lexes to a row for the log table whose columns, by their names, give the masked query, the ordered set of tables touched since the boundary, the statement count and the event's fields |
| Secrets.SecretsNeverReachTheLog | src/selective_trace_mysql.cc:813-1022 | with masking on and a discreet event, other bodies in the literals that the masker cuts out give the same output and the same state; discreet is read off the query: no literal can decide the keyword, and the stored schema is over or full where the first one begins |
| Secrets.RunsHideSecrets | src/selective_trace_mysql.cc:813-1022 | two histories that differ in such bodies alone output the same, event by event, and end in the same state |
| SqlLiterals.WholeSecretsNeverReachTheLog | src/selective_trace_mysql.cc:813-1022 | if moreover no quote is doubled, these bodies are the whole contents of the MySQL literals, in the query and in every one like it, so no part of a secret shows |
| SqlLiterals.RunsHideWholeSecrets | src/selective_trace_mysql.cc:813-1022 | the same over whole runs |
| SecretLeaks.SecretsAreSafeExactlyWhen | src/selective_trace_mysql.cc:813-898 | for every event, keyword and schema are the same with all other bodies exactly when the event is discreet |
| SqlLiterals.SecretsStayOutExactlyWhen | src/selective_trace_mysql.cc:813-898 | they are, and every redacted text is a whole MySQL literal, exactly when the event is discreet and no quote is doubled |
| SecretLeaks.CommentedSecretIsTheCommand | core/filter_engine.cc:385-445 | a quoted secret inside an open comment can end it and spell any command |
| SecretLeaks.GluedSecretIsInTheCommand | core/filter_engine.cc:434-445 | the digits of a hexadecimal secret glued to the first word are in the command |
| SecretLeaks.SchemaHoldsTheSecret | src/selective_trace_mysql.cc:663-687 | a quoted secret inside a backticked schema name becomes part of the schema |
| SecretLeaks.ACommentedPassword | core/filter_engine.cc:385-445 | one query whose secret chooses the command |
| SecretLeaks.AGluedHash | core/filter_engine.cc:434-445 | one query whose command shows the digits of the secret |
| SecretLeaks.ABacktickedPassword | src/selective_trace_mysql.cc:663-687 | one query whose schema shows the secret |
| SecretLeaks.AProtocolSchema | src/selective_trace_mysql.cc:631-637 | any two passwords that the masker would redact give two schemas when they arrive in a schema set by protocol |

## Left out

- Registry and command-service acquisition, instrumentation, plugin descriptor, system and status variable tables: server glue; its calls are answers given as parameters.
- Clocks, time-stamp formatting and floating-point printing: the printed texts are opaque over the alphabet their formats use, and the duration test is over exact numbers.
- Out-of-memory and exception paths, and the unsynchronised reads of statistics counters; counters other than the sequence number do not wrap.
- stdio buffering, the file system, changes of the file path racing with its readers, and error-log text.
- A second thread reading the unlocked variables at several moments of one event: an event's handler finds the threshold, the masking switch and the target in one step with the rules.
- Idempotence of masking: it does not hold for the 0x form and nothing relies on it.
- StatementTheorems.TablesAreTheOrderedSet: only for comma-free table names, because the buffer separates by commas.
- Secrets.SecretsNeverReachTheLog: its bodies are those the masker cuts out; what a MySQL literal holds behind a doubled quote is the subject of SqlLiterals.WholeSecretsNeverReachTheLog.
- WriterTheorems.EveryRunKeeps: only up to the deletion that takes the queue from a running thread, because what follows it is undefined.
- The test programs, build scripts and the MariaDB sibling.
