# A verified model of the T-SQL server

The repository is a T-SQL front end for PostgreSQL: it speaks TDS to its clients, rewrites
T-SQL into PostgreSQL text, interprets the control flow itself, and brings its own SQL types.
This project models three connected parts of it and proves what they promise.

**The wire layer** (`tds/`). `DynBuffer` is the growable byte buffer with its children, which
write into their parent's storage, its back-patched length field and its tail area; it is a
class over an array, and every writer above it is a method that appends to it. `Tokens`,
`TokenWriter`, `TokenStream` and `Results` are the response tokens, the chaining of DONE and
the versioned result sets; `Packet` splits and joins messages; `Prelogin` and `Rpc` read and
write the option table and the parameter list. Decoders that follow MS-TDS and `docs/versions`
stand beside the encoders: `Walk` is a client that knows only the bytes, and `Bodies` what it
reads inside the framed tokens.

**The translator and interpreter** (`language/`). `Syntax` has the parse trees, the lexemes
they are written with and the text that each action emits. `Emission` shows that emission is
one pass over the lexemes. `Translate` has statements, the compiled statement objects and the
parser as a class with its shared variable list; `Values` gives a text its meaning and shows
that numbering keeps it; `Literals` shows what becomes of it when the database name is put in,
and `Spelling` and `Queries` that the tokens of conditions and of whole statements spell the
strings which the actions' formats print. `Exec` is the run of statement objects against a
PostgreSQL that may answer anything (a function of everything it has been asked); `Effects`
says what each statement leaves behind - messages, variables, database, queries - by the
answers alone; `Preserve` compares the run with that of the source. `Executor` is the same run
as the classes of the source perform it. `Cursor` is the FETCH loop, `Placeholder` the expansion
of `##DATABASE##`, `Names` the two ways to resolve an object name. `Connection` and `TdsMain` are
the life of a connection, `Opening` what it does up to its first request; `Batch` puts parser and
executor together, and `Answer` follows logins, batches and calls to the client's reading of the
packets.

**Values** (`types/`). `Decimal` has the stored form in base 256, text in and out, arithmetic
and SUM; `Compare` the orders of varbinary and varchar with their operators and max.

`Bytes`, `DigitText` and `Options` are small foundations.

## What is proved

- *Bytes reach the client as they were meant.* Every script of adds, counted texts, length
  fields and tail data that the storage can take, with any number of reallocations, leaves the
  parent of a child with exactly the sealed bytes, once. What the storage can take is computed
  add by add (`DynBuffer.AllSafe`), for single buffers as for whole responses
  (`TokenStream.AllFit`), from the 1024 bytes that a response starts with. A token stream is
  walked token by token, ends in a DONE without MORE, and survives splitting and joining; a
  batch goes from its text through child buffers, root and packets to the client's records.
  Where the code cannot keep a value (REAL, CHAR, DECIMAL, long typmods, counts over their
  field), the exact condition is proved instead.
- *Translation preserves meaning.* Trees with the same lexemes emit the same text, so the
  grammar's own grouping never matters. The meaning of the source knows no numbers, no lists and
  no placeholder: variables are read where they stand, names are looked up in the current
  database, and literals stay as written. A statement object sends that meaning exactly when
  the replacement of the placeholder leaves every literal alone, and exec_bool asks it exactly
  when the string kept of the condition holds no placeholder. Whole programs with nested IF,
  WHILE and BEGIN that hold none themselves run as their source does, under every behaviour of
  PostgreSQL.
- *Runs are disciplined.* A program returns 0 exactly when it appended no ERROR, and each ERROR
  has its DONE with the error bit, up to the client; nothing runs after a failure; tokens are
  never taken back; a batch of SQL statements gives the client the rows of each selection with
  their number; a call runs exactly the text and the parameters that its bytes hold; the cursor
  idiom visits every row once, in order, and ends; a connection keeps the protocol, one version
  and balanced brackets.
- *Values are what they say.* Decimal text comes back exactly when it is canonical and fits;
  sums, differences, products, comparisons and casts are right exactly under conditions that a
  caller can check; the operator classes are orders.

Where the code departs from its intent, the model follows the code and a lemma says when the
two agree: `Results.FixedExact` (REAL keeps eight bits), `Results.MaxTypmodMisread`,
`Walk.RowCountExact` (the high word of a row count is a truth value), `Rpc.AlignedExact`,
`Connection.ParameterSeen`, `Placeholder.BoolQueryExact` (exec_bool expands in the wrong
string), `Exec.DoBoolExact`, `Preserve.StatementExact`, `Preserve.IfExact`, `Rpc.NamedExact`,
`Exec.AssignExact`, `Names.SizeExact`, `Names.LengthReadIsWrong`, `Names.ResolversAgree`,
`Names.AgreeAsWritten`, `Decimal.TypmodExact`, `Decimal.MinusExact`, `Decimal.NegatorFails`,
`Decimal.CastIntExact`, `Decimal.SignsLost`, `Compare.PlusCommutes` and `Compare.NulHides`. The
layout in
`docs/versions:52-56` ends a long value with one zero word even when the value is empty; the
decoder follows that layout.

## Model

| member | source | states |
|---|---|---|
| Bytes.FitsExactly | tds/util.h:23-27 | a number written little-endian reads back as itself exactly when it fits the field |
| Bytes.RoundTrip | tds/util.h:176-181 | host-order and network-order fields of a number that fits are read back |
| Bytes.LEInjective | tds/util.h:26-27 | equally long fields with one value are the same bytes |
| DynBuffer.DynBuffer.constructor | tds/dynbuffer.cc:18-22 | a new root is open, empty and owns storage of the given size |
| DynBuffer.DynBuffer.Child | tds/dynbuffer.cc:24-29 | a child is empty and points just behind its parent's contents in the parent's storage |
| DynBuffer.DynBuffer.MakeRoom | tds/dynbuffer.cc:81-98 | storage doubles at most once and keeps every byte, child and parent still agree on it, and the room suffices exactly when one doubling can serve the request |
| DynBuffer.DynBuffer.AddBytes | tds/dynbuffer.cc:100-106 | the bytes follow the old contents and nothing in front of them moves |
| DynBuffer.DynBuffer.AddNU16 | tds/dynbuffer.cc:162-167 | two bytes in network order are appended |
| DynBuffer.DynBuffer.AddHU32 | tds/dynbuffer.cc:183-188 | four bytes in host order are appended |
| DynBuffer.DynBuffer.AddLengthHU16 | tds/dynbuffer.cc:147-153 | a placeholder is appended and remembered as the place of the length |
| DynBuffer.DynBuffer.AddBytesAtTail | tds/dynbuffer.cc:108-137 | only a placeholder is appended; the data joins the tail list in order; another pointer type adds nothing and is refused |
| DynBuffer.DynBuffer.AddCc1Ucs2 | tds/dynbuffer.cc:210-252 | count byte and text are appended, under the exact condition on the storage |
| DynBuffer.DynBuffer.AddCch2Ucs2 | tds/dynbuffer.cc:254-296 | two count bytes and text are appended although only one byte is asked for, under the exact condition for that to be safe |
| DynBuffer.DynBuffer.Replay | tds/dynbuffer.cc:81-296 | any script of adds, counted texts, length fields and tail data that the storage can take appends exactly its bytes, records lengths and tails, and leaves the storage at the computed size |
| DynBuffer.DoJoin | tds/dynbuffer.cc:81-296 | a script in two parts does, and is safe, as its parts one after the other |
| DynBuffer.DynBuffer.PlaceTails | tds/dynbuffer.cc:39-51 | the tails follow in order, each pointer naming the place where its data went, and the storage has the computed size |
| DynBuffer.DynBuffer.Finalise | tds/dynbuffer.cc:31-68 | the first call places tails, fills the length and hands a child's bytes to its parent; a second call changes nothing |
| DynBuffer.WriteThroughChild | tds/dynbuffer.cc:24-68 | a child with any script that the storage can take, lengths and tails included, leaves the root with its old contents followed by the sealed bytes, once, however often it is finalised |
| DynBuffer.PatchGap | tds/dynbuffer.cc:227-250 | a count written last into its reserved place gives count and text in order |
| Results.CellExact | tds/tdstoken_results.cc:129-307 | a cell is read back by the metadata decoder exactly when its value is recoverable, for every sendable type and version |
| Results.FixedExact | tds/tdstoken_results.cc:224-305 | the fixed-length types are read back exactly unless REAL has more than eight bits |
| Results.ShortExact | tds/tdstoken_results.cc:164-172 | the 16-bit form recovers NULL and every value shorter than 65535 bytes, and no longer one |
| Results.LongExact | tds/tdstoken_results.cc:151-163 | the long form recovers NULL and every value shorter than 4 GiB, empty ones included |
| Results.Misread | tds/tdstoken_results.cc:151-172 | a short-form cell is never read right by a decoder that expects the long form |
| Results.ColumnRoundTrip | tds/tdstoken_results.cc:13-128 | the metadata of every column, CHAR and DECIMAL included, decodes to its user type, flags, type byte, size, collation or precision and scale, and name, with nothing left over |
| Results.DecimalTold | tds/tdstoken_results.cc:106-114 | a client is told precision and scale of a decimal(p, s) as they were declared |
| Results.ColumnsRoundTrip | tds/tdstoken_results.cc:12-128 | so does a list of columns |
| Results.CellsRoundTrip | tds/tdstoken_results.cc:132-307 | a row decodes to its cells in order |
| Results.RowsRoundTrip | tds/tdstoken_results.cc:129-308 | so does a list of rows |
| Results.ResultsRoundTrip | tds/tdstoken_results.cc:9-311 | a decoder driven by the emitted metadata alone recovers the columns with their types and names and the nullable cells, and leaves what follows |
| Results.NoDecoderForSilentTypes | tds/tdstoken_results.cc:136-147 | no decoder at all can tell two CHAR or two DECIMAL cells apart |
| Results.MaxTypmodMisread | tds/tdstoken_results.cc:39-45 | with typmod 0x7FFFFFFF header and row form disagree, and the cell is misread |
| Tokens.SealFramed | tds/dynbuffer.cc:52-64 | finalising a framed token fills in the length of what follows the length field |
| Tokens.BodyScriptBytes | tds/tdstoken_error.cc:14-25 | the adds of each framed token make up its body, the line number by version |
| Tokens.ColumnScriptBytes | tds/tdstoken_results.cc:18-127 | the adds of a column make up its metadata |
| Tokens.CellScriptBytes | tds/tdstoken_results.cc:135-306 | the adds of a cell make up its encoding |
| TokenWriter.WriteColumn | tds/tdstoken_results.cc:18-127 | the writer does exactly the adds of the column's metadata, whenever the storage can take them |
| TokenWriter.WriteCell | tds/tdstoken_results.cc:135-306 | the writer does exactly the adds of the cell, whenever the storage can take them |
| TokenWriter.WriteRows | tds/tdstoken_results.cc:129-308 | the nested loops append exactly the rows, whenever the storage can take them |
| TokenWriter.WriteFramed | tds/tdstoken_info.cc:11-27 | type, length placeholder and body are added and the length field remembered, whenever the storage can take them |
| TokenWriter.WriteDone | tds/tdstoken_done.cc:9-20 | 9 or 13 bytes by version, the high word a truth value; StatusRead says what its status tells a client |
| TokenWriter.WriteToken | tds/tdstoken_loginack.cc:5-17 | what a token has written becomes its encoding once finalised, whenever the storage can take its adds |
| TokenStream.TokenisedPacket.AddToken | tds/tdspacket_tokenised.cc:46-55 | the token goes to the end of the list |
| TokenStream.TokenisedPacket.WriteOne | tds/tdspacket_tokenised.cc:20-31 | one token through its own child buffer appends its encoding to the root and leaves the storage at the computed size |
| TokenStream.TokenisedPacket.WriteAll | tds/tdspacket_tokenised.cc:19-32 | every DONE with a successor gets MORE, and the tokens are appended in order |
| TokenStream.TokenisedPacket.WritePacket | tds/tdspacket_tokenised.cc:10-44 | the response is the chained list, with a DONE behind it when it ends otherwise, whenever the storage can take it add by add |
| TokenStream.Transmit | tds/tdspacket.cc:80-117 | from the list of tokens over child buffers and a root of 1024 bytes to the packets of exactly the encoded response |
| TokenStream.ChainedAt | tds/tdspacket_tokenised.cc:21-24 | in the chained list every token but the last is marked, and no other changed |
| Walk.FrameExact | tds/tdstoken_env_database.cc:8-16 | a framed token is read back exactly when its body fits the 16-bit length |
| Walk.DoneRoundTrip | tds/tdstoken_done.cc:9-20 | a DONE is read back by the size of its version, at every status and count |
| Walk.StatusRead | tds/tdstoken_done.h:8-19 | a client finds MORE in bit 0 of the status, ERROR in bit 1 and COUNT in bit 4, each exactly when it was set, and no other bit |
| Walk.RowCountExact | tds/tdstoken_done.cc:15-18 | which row counts a client reads right, in both versions |
| Walk.OneRoundTrip | tds/tdstoken_env_collation.cc:6-17 | any one token is read back and what follows is left |
| Walk.WalkRoundTrip | tds/tdspacket_tokenised.cc:19-32 | a walk over the bytes visits exactly the tokens that were written |
| Walk.ResponseEnds | tds/tdspacket_tokenised.cc:21-42 | the last record is a DONE, every DONE before it says MORE, and when the last one does too |
| Walk.ClientSeesResponse | tds/tdspacket.cc:80-117 | a client that joins the packets of an encoded response and walks them finds exactly its tokens |
| Bodies.NoticeExact | tds/tdstoken_error.cc:14-25 | ERROR and INFO are read back exactly when each number fits its field, the line number by version, and the text has less than 65536 characters |
| Bodies.AckExact | tds/tdstoken_loginack.cc:7-15 | LOGINACK is read back exactly when interface and version fit and the product name has less than 256 characters |
| Bodies.DatabaseExact | tds/tdstoken_env_database.cc:9-14 | the database change is read back exactly when both names have less than 256 characters |
| Bodies.CollationRead | tds/tdstoken_env_collation.cc:8-15 | the collation change is always the five bytes of one collation and no old one |
| Packet.FragmentsCover | tds/tdspacket.cc:91-115 | the fragments are non-empty, at most 4088 bytes, and make up the message |
| Packet.WritePacket | tds/tdspacket.cc:91-115 | the splitting loop writes the fragments with their headers, EOM on the last |
| Packet.ReadPacket | tds/tdspacket.cc:28-57 | the nested loops compute the reassembly function, however recv() cuts the payloads into pieces |
| Packet.ReadFragments | tds/tdspacket.cc:31-56 | from any state of the loop, the packets of a message are joined or overrun the buffer |
| Packet.ReadConsumes | tds/tdspacket.cc:31-56 | a message that was read has used up bytes of the stream |
| Packet.PacketsSeen | tds/tdspacket.cc:91-115 | cut by their own lengths, the packets of any message have 4096 bytes each but the last, which is not empty and alone says EOM; type, spid 0, id 1 and window 0 stand in every header, and the payloads are the message |
| Packet.SplitJoin | tds/tdspacket.cc:16-57 | joining what was split gives the message and leaves what follows, exactly for messages of 1 byte to 1 MiB |
| Prelogin.AddOption | tds/tdspacket_prelogin.cc:46-50 | an option adds its entry to the table and its data to the tail list |
| Prelogin.WriteTable | tds/tdspacket_prelogin.cc:46-71 | the table holds exactly the options that are set |
| Prelogin.WritePacket | tds/tdspacket_prelogin.cc:42-73 | written and finalised, the buffer is the finished table of the options that are set |
| Prelogin.TailsComplete | tds/dynbuffer.cc:39-51 | finalising the table with its tails gives directory and data with every pointer right |
| Prelogin.EntryAt | tds/tdspacket_prelogin.cc:46-71 | every entry's offset and length name its own bytes |
| Prelogin.AreasTile | tds/tdspacket_prelogin.cc:46-71 | the data areas follow one another without gap or overlap and fill the tail |
| Prelogin.FieldsFound | tds/tdspacket_prelogin.cc:42-73 | a client that looks for tokens 0 to 4 finds the bytes of the options that are set, none for THREADID, and finds nothing for any other token |
| Prelogin.ReadPacket | tds/tdspacket_prelogin.cc:9-40 | the loop over at most 32 entries computes the reading function |
| Prelogin.ReadFinished | tds/tdspacket_prelogin.cc:16-39 | from any entry on, the loop sees exactly the entries of the table |
| Prelogin.PreloginRoundTrip | tds/tdspacket_prelogin.cc:9-73 | version, encryption and MARS are read back for every subset of options |
| Rpc.NextParam | tds/tdspacket_rpc.cc:39-72 | a round stays inside the message and advances at least 12 bytes for nvarchar, 3 otherwise |
| Rpc.ReadPacket | tds/tdspacket_rpc.cc:3-74 | the loop decodes the call and stops at the end of the message |
| Rpc.CallRoundTrip | tds/tdspacket_rpc.cc:9-73 | a call with nvarchar parameters is decoded to its names and values, with and without the 7.2 header |
| Rpc.ReceivedAligned | tds/tdspacket_rpc.cc:47-66 | names and values are those that were sent, pairwise |
| Rpc.AlignedExact | tds/tdspacket_rpc.cc:57-71 | names and values line up exactly when every parameter is nvarchar |
| Rpc.NamedExact | tds/tdspacket_rpc.cc:15-38 | a call by name is decoded as it was sent exactly when the name is empty: its count of characters is taken for one of bytes |
| Rpc.ParamsTyped | tds/tdspacket_rpc.cc:57-71 | a parameter has a value exactly when it is nvarchar |
| Placeholder.ReplaceAll | language/exec.cc:29-32 | the in-place loop ends and makes one left-to-right pass over the original, whatever the name holds |
| Placeholder.ExpandLength | language/exec.cc:29-32 | every match changes the length by the name's length less 12 |
| Placeholder.ExpandedIsFree | language/exec.cc:29-32 | no placeholder is left when the name cannot take part in one |
| Placeholder.ExecBoolQuery | language/exec.cc:219-227 | the loop of exec_bool, with the wrong string and the exception that std::string throws |
| Placeholder.BoolQueryExact | language/exec.cc:219-227 | for every non-empty name, exec_bool sends the expanded condition exactly when it holds no placeholder |
| Names.SplitName | types/misc.cc:44-111 | the loop over states and offset arrays computes the state machine |
| Names.PrintName | types/misc.cc:112-163 | the result has the size that is set for the characters copied and starts with the printed name in lower case |
| Names.ObjectName | types/misc.cc:42-166 | the whole function as written, with the lengths it reads from the memory behind the two names: the printed name, and behind a full three-part name three characters that nobody wrote |
| Names.LowerExact | language/parse.y:21-26 | make_lower, told by codes: 65 to 90 become 32 more, and nothing else changes |
| Names.UnitLowered | types/misc.cc:161-164 | the last loop lowers a capital in the low byte of a character, and leaves its high byte |
| Names.LengthMeant | types/misc.cc:125-125 | the length is right behind the header of a varlena of n characters |
| Names.SizeExact | types/misc.cc:115-146 | the size given to the result is that of what is printed, but three too many for a full three-part name |
| Names.LengthReadIsWrong | types/misc.cc:125-141 | the length that is read for a database or schema name is always more than the right one, whatever the memory behind the name holds |
| Names.ResolversAgree | types/misc.cc:62-165 | the intended form, with the right lengths: splitting and printing equals emitting and expanding exactly for the names with no part in brackets, no white space and no part INTEGER |
| Names.AgreeAsWritten | types/misc.cc:42-166 | as written, what the function returns has the length of the expanded emitted name exactly for names of one part that is not in brackets, not among white space and not INTEGER, and is that name when its characters fold alike too; whatever the memory behind the two names holds |
| Names.ExpandCurrent | language/parse.y:550-550 | expanding a two-part name gives it in the current database |
| Names.ExpandName | language/parse.y:548-552 | expanding any emitted name gives the name in the current database |
| Names.ProcNameExact | language/parse.y:554-580 | procedures and tables are named alike exactly when the name is not a qualified system procedure |
| DigitText.NumberOfDigits | types/tsql_decimal.c:123-146 | reading back the printed digits of a number gives the number |
| DigitText.DigitsOfNumber | types/tsql_decimal.c:145-146 | printing the number of a digit string gives it back exactly when it has no leading zero |
| Emission.PassExpr | language/parse.y:419-462 | the actions on any expression tree emit what one pass over its lexemes emits |
| Emission.PassCond | language/parse.y:623-639 | the same for conditions |
| Emission.PassArgs | language/parse.y:398-400 | the same for parameter lists |
| Emission.PassField | language/parse.y:582-586 | a dotted name with nothing behind it is a column's |
| Emission.PassName | language/parse.y:548-552 | a dotted name in front of a parenthesis is a function's |
| Emission.EmissionIgnoresTrees | language/parse.y:241-250 | two trees with the same lexemes emit the same text and the same numbers |
| Emission.OneLevelOfAndOr | language/parse.y:247-247 | the two groupings of a AND b OR c are different trees with the same emission |
| Translate.Parser.ReduceVar | language/parse.y:446-462 | the search finds the first occurrence, a new name is appended, and the number is the position |
| Translate.Parser.ReduceExpr | language/parse.y:419-462 | the actions, run over the shared list, give the text and the list of the specification |
| Translate.Parser.ReduceCond | language/parse.y:623-639 | the same for conditions |
| Translate.Parser.ReduceQuery | language/parse.y:711-730 | the same for a query, its TOP moved to the end; SqlMeans and SpellsQuery say what that is |
| Translate.Parser.ReduceAssignSelect | language/parse.y:668-698 | the columns' variables are taken out in order and the query is that of the columns |
| Translate.Parser.Statement | language/parse.y:272-287 | with an empty list before it, a statement gets its own numbering and leaves the list empty |
| Translate.Parser.Rule | language/parse.y:306-333 | IF and WHILE keep their condition's list through the statements inside |
| Translate.Parser.Statements | language/parse.y:268-270 | the statements of a list in order, the list empty again |
| Translate.PassGrows | language/parse.y:446-462 | the list only grows at its end and stays free of duplicates, and every number has a variable |
| Values.NumberingPreserves | language/parse.y:446-462 | bound to its list or any extension of it, a numbered text means what its lexemes mean in the environment, in a database called ##DATABASE## |
| Values.CondMeans | language/exec.cc:230-250 | the same for a condition as its action emits it |
| Values.SqlMeans | language/exec.cc:88-109 | the same for whole queries, unions and inserts: the meaning has its own words, DISTINCT, FROM, WHERE, ALL and LIMIT n for TOP n among them |
| Values.BindExpanded | language/exec.cc:29-54 | putting in the database name and binding the values do not disturb each other |
| Literals.AloneExact | language/exec.cc:29-32 | a text comes through the replacement unchanged exactly when it holds no placeholder or the database is called ##DATABASE## |
| Literals.MeaningExact | language/exec.cc:29-54 | the bound text with the database name put in is the meaning in that database exactly when every literal is left alone |
| Literals.SqlExact | language/parse.y:700-745 | the same for whole queries, unions and inserts, with their tables |
| Spelling.SpellsExpr | language/parse.y:419-462 | the tokens of an expression, spelled out, are the string that the formats of the actions print |
| Spelling.SpellsCond | language/parse.y:623-639 | the same for conditions: the string that exec_bool searches |
| Queries.SpellsQuery | language/parse.y:704-731 | the tokens of a query spell what its formats print: SELECT or SELECT DISTINCT, the columns, FROM, WHERE, and LIMIT n at the end for TOP n |
| Queries.SpellsUnion | language/parse.y:531-534 | the same for UNION and UNION ALL |
| Queries.SpellsInsert | language/parse.y:744-748 | the same for INSERT INTO table VALUES (..); |
| Queries.SpellsStatement | language/parse.y:505-514 | what SET, a query or INSERT, SELECT @a = .. and PRINT send spells the string that their actions print |
| Queries.AssignsInOrder | language/parse.y:668-688 | SELECT @a = .. keeps the variables in the order in which they were written, in lower case |
| Spelling.FormatIgnoresTrees | language/parse.y:241-250 | conditions with the same lexemes print the same string, whatever their trees |
| Exec.DoBoolExact | language/exec.cc:213-286 | what exec_bool asks is what is meant when its string holds no placeholder; otherwise it asks for another text, throws, or searches for ever |
| Exec.ErrorDiscipline | language/exec.cc:289-304 | a run that returns has appended an ERROR exactly when it returns 1; a DONE with the error bit stands behind each ERROR and nowhere else; nothing is taken back |
| Effects.SqlProgram | language/exec.cc:88-161 | for any list of SQL statements and any PostgreSQL that accepts the first n of them, the response gets, statement by statement, the rows of a selection and a DONE that counts them, or a DONE that counts none; the first that is not accepted ends the run with an ERROR or the exception |
| Effects.SetLeaves | language/stmt_set.h:13-29 | the variable has the first value of the answer, every other one what it had; nothing is appended |
| Effects.PrintLeaves | language/stmt_print.h:11-28 | the text is cast and asked for; an INFO with it and a plain DONE are appended, and nothing else changes |
| Effects.FetchLeaves | language/stmt_fetch.h:12-39 | the status is -1 or 0; a row's columns are in the variables, the last of equal names deciding, and no other variable changes |
| Effects.AssignLeaves | language/stmt_assign_select.h:21-39 | without exactly one row there is an ERROR; otherwise as many names as there are columns have the first value, and no other changes |
| Effects.UseLeaves | language/stmt_use.h:10-51 | which two questions are asked, and that only then the database changes with its two tokens; error 911 for a missing one |
| Effects.InitLeaves | language/exec.cc:3-17 | the three session variables and the question for the process number; no other variable changes |
| Effects.IfTakes | language/stmt_if.h:11-28 | with one row of a first value that is not 0 the first branch runs, with 0, NULL or no column the second; anything else is an error or ends the process |
| Effects.WhileUnrolls | language/stmt_while.h:10-28 | a WHILE whose condition holds is its body and then the same WHILE, as long as the body returns 0; an empty answer behind a round counts as the one before |
| Exec.DisciplineOfLoop | language/stmt_while.h:17-26 | the same for the loop of WHILE |
| Exec.DisciplineOfAll | language/stmt_block.h:11-25 | the same for a list of statements |
| Exec.AssignExact | language/stmt_assign_select.h:35-37 | every row gives every variable its own column exactly when there is one variable |
| Exec.RunJoin | language/stmt_block.h:12-22 | the second part of a list runs exactly when the first returned 0 |
| Exec.MoreFuel | language/stmt_while.h:10-28 | the bound on rounds decides only whether a run ends, never its outcome |
| Preserve.SentExact | language/exec.cc:29-54 | the query that a SET, SELECT, INSERT or PRINT sends is the one its source means, in the state's environment and database, exactly when every literal is left alone by the replacement |
| Preserve.StatementExact | language/exec.cc:29-54 | whatever PostgreSQL answers, such a statement object does what its source asks exactly when every literal is left alone; in a database of another name than the placeholder, exactly when no literal holds it |
| Preserve.ConditionExact | language/exec.cc:213-250 | in every state and under every PostgreSQL, exec_bool does what the source's condition asks, with its names looked up in the current database, exactly when the string kept of it holds no placeholder |
| Preserve.TranslationPreserves | language/parse.y:254-333 | for every program with no placeholder in its literals and conditions, every PostgreSQL and every bound, the compiled run, numbering and replacement included, is the source run, which knows neither |
| Preserve.IfExact | language/exec.cc:213-250 | for an IF over plain branches the translation is right in every situation exactly when its condition holds no placeholder |
| Preserve.WhileExact | language/exec.cc:213-250 | the same for WHILE |
| Preserve.RoundsPreserve | language/stmt_while.h:10-28 | the same for the rounds of WHILE |
| Preserve.ListPreserves | language/stmt_block.h:11-25 | the same for lists of statements |
| Executor.Session.Params | language/exec.cc:35-54 | the loop binds each position to the session's or the program's variable |
| Executor.Session.Execute | language/exec.cc:19-61 | one query is sent: the text with the database name in it and the values bound |
| Executor.Session.ExecSet | language/stmt_set.h:13-29 | the variable gets the first column of the first row; a failed query is dereferenced |
| Executor.Session.ExecSql | language/exec.cc:72-161 | results and DONE, or DONE alone, or an ERROR, by the code that comes back; SqlProgram and SqlReachesClient say what a client gets of it |
| Executor.Session.ExecAssign | language/stmt_assign_select.h:21-39 | one row is needed, and every variable gets its first column |
| Executor.Session.ExecPrint | language/stmt_print.h:11-28 | an INFO with the text and its DONE |
| Executor.Session.ExecFetch | language/stmt_fetch.h:12-39 | status -1 at the end, else status 0 and the row's columns in the variables, as far as both reach |
| Executor.Session.ExecUse | language/stmt_use.h:10-51 | the database changes, with its two tokens, only if it exists and the path could be set |
| Executor.Session.ExecBlock | language/stmt_block.h:11-25 | the loop with its early return runs the list |
| Executor.Session.ExecBool | language/exec.cc:213-286 | the loop over the wrong string, the query that comes out of it, and the verdict on the answer |
| Executor.Session.ExecIf | language/stmt_if.h:11-28 | one branch runs, chosen by what exec_bool says; an exception ends the run |
| Executor.Session.ExecWhile | language/stmt_while.h:10-28 | the loop re-evaluates the condition after every round; with no row the old result stays |
| Executor.Session.Exec | language/stmt.h:18-18 | any statement changes session, variables and response as its specification says |
| Executor.Session.Init | language/exec.cc:3-17 | the session variables are set and the process number asked for |
| Batch.ParseAndRun | language/program.h:22-25 | parser and executor, both in place, have the effect of the compiled program, and of the source program when it holds no placeholder |
| Cursor.FetchStep | language/stmt_fetch.h:17-38 | a FETCH gives the next row and status 0, or status -1 when the rows are used up |
| Cursor.LoopVisitsRows | language/stmt_while.h:17-26 | the loop ends within as many rounds as rows are left and starts its body once for each, in order, with its values in the variables |
| Cursor.OneCursorServes | language/stmt_fetch.h:17-23 | a PostgreSQL with such a cursor and such a comparison exists |
| Cursor.SqlBodyHarmless | language/stmt_sql.h:11-13 | any list of SQL statements that PostgreSQL accepts can be the body |
| Cursor.CursorTerminates | language/stmt_fetch.h:12-39 | FETCH and WHILE together return 0, ask for one row more than there are, leave status -1, and visit every row once, in order, with its values in the variables |
| Connection.BracketsBalance | tds/tdsmain.cc:96-203 | transaction, SPI and snapshot brackets are closed at every loop head and a program runs only inside them |
| Connection.SqlBrackets | tds/tdsmain.cc:226-275 | the same for one batch, on return and on an exception |
| Connection.RpcBrackets | tds/tdsmain.cc:279-331 | the same for a procedure call |
| Connection.ProtocolKept | tds/tdsmain.cc:18-360 | nothing runs or is answered before the login; afterwards there is one login, and every call is decoded and every request answered under one version, the minimum of both sides |
| Connection.FailsExactly | tds/tdsmain.cc:18-360 | a connection ends in FAIL exactly when its first one or two packets are out of order; then nothing has been asked or answered but PRELOGIN, and nothing more is read |
| Connection.LoggedInNeverFails | tds/tdsmain.cc:206-358 | after a login no packet fails the connection |
| Connection.ParameterSeen | tds/tdsmain.cc:303-309 | the statement of sp_executesql sees a parameter exactly when its name came in lower case |
| Connection.BatchRuns | tds/tdsmain.cc:208-278 | a batch runs the statements of its text with no variables and a new response; what is left is the run's session, database and queries, its messages, and an ERROR 102 behind them when it threw or did not parse |
| Connection.CallRuns | tds/tdsmain.cc:279-331 | from the bytes of a call of procedure 10: what runs is the program of DECLARE, the second value, a new line and the first value, with exactly the parameters from the third on as its variables |
| Connection.CallAnswered | tds/tdsmain.cc:279-331 | if that run returns, the call gets one response under the version of the connection, with an ERROR exactly when it returned 1; otherwise nothing is answered |
| Connection.OtherCalls | tds/tdsmain.cc:324-329 | a call of any other procedure asks nothing and is not answered |
| Connection.BatchAnswered | tds/tdsmain.cc:208-278 | a batch gets one response, and it holds an ERROR exactly when the batch did not parse, threw or returned 1 |
| Opening.PreloginNames | tds/tdsmain.cc:20-53 | the instance is that of PRELOGIN, and mssqlserver for none, an empty one and that name in any case |
| Opening.LoginOpens | tds/tdsmain.cc:78-205 | which four questions a login asks, up to the first answer that it cannot go on from; there the process ends without an answer, otherwise version, session, database and response are these |
| TdsMain.Main.Login | tds/tdsmain.cc:78-205 | the login asks its queries, those of init_types included, and updates executor, version and state as specified |
| TdsMain.Main.Queries | language/misc.cc:5-71 | the search path, the two queries for the types, and the session: the first that fails ends the login |
| TdsMain.Main.Batch | tds/tdsmain.cc:208-278 | a batch does; BatchRuns and BatchAnswered say what that is |
| TdsMain.Main.Call | tds/tdsmain.cc:279-331 | a procedure call, decoded from its bytes, does; CallRuns and CallAnswered say what that is |
| TdsMain.Main.Parameters | tds/tdsmain.cc:303-309 | the loop makes variables of the parameters from the third on |
| TdsMain.Main.Run | tds/tdsmain.cc:10-364 | the loop over the packets is the specified service, up to the packet that ends it |
| Answer.SentErrors | tds/tdspacket_tokenised.cc:19-42 | the records that a client reads hold an ERROR exactly when the messages do |
| Answer.MessagesShown | tds/tdspacket_tokenised.cc:19-42 | the client finds every message in its order - number, severity and text of ERROR and INFO, flags and count of DONE, columns and rows, database names, collation, versions - and one more DONE unless the last is one |
| Answer.FlagsReach | language/exec.cc:289-304 | in the records each ERROR is followed by a DONE whose error bit is set and whose count is not valid, and no other DONE has the bit |
| Answer.SqlReachesClient | language/exec.cc:88-161 | a batch of SQL statements, up to the client: for each one that is accepted its rows with their number, or a DONE that counts none; at the first that is not, an ERROR, a DONE with the error bit, and nothing behind them |
| Answer.LoginReachesClient | tds/tdsmain.cc:78-205 | a login that comes through: the client finds the agreed version, the database, the collation and a DONE, and nothing else |
| Answer.CallReachesClient | tds/tdsmain.cc:279-331 | a call of sp_executesql from the bytes that the client sends to the records that it reads |
| Answer.BatchReachesClient | tds/tdsmain.cc:208-278 | whenever the response can be delivered from 1024 bytes on, the client reads exactly its tokens, every message as MessagesShown says, an ERROR exactly for a bad batch and a DONE with the error bit behind it, MORE on every DONE but the last |
| Answer.DeliverBatch | tds/tdsmain.cc:208-278 | the same done in place: the batch runs, its tokens go through child buffers, root and packets, and the client that reads them gets those records and what follows on the connection |
| Decimal.ImportExport | types/tsql_decimal.c:123-124 | importing an exported number gives it back |
| Decimal.Input | types/tsql_decimal.c:96-130 | the scanning loop stores precision, scale and magnitude of the text |
| Decimal.TextRoundTrip | types/tsql_decimal.c:83-155 | an unsigned numeral comes back as it was exactly when it has no leading zero, digits behind its point, and fits 69 characters |
| Decimal.SignsLost | types/tsql_decimal.c:97-103 | blanks and signs in front of a text are lost, whatever the typmod |
| Decimal.TypmodExact | types/tsql_decimal.c:87-89 | a typmod keeps the value exactly when its scale is the text's or the value is 0 |
| Decimal.CompareAtOneScale | types/tsql_decimal.c:39-59 | at one scale the comparison is that of the values |
| Decimal.CompareAtTwoScales | types/tsql_decimal.c:39-59 | at any two different scales it orders some values wrongly |
| Decimal.PlusExact | types/tsql_decimal.c:416-445 | the stored sum is the sum exactly when the scales agree or the right operand is 0 |
| Decimal.MinusExact | types/tsql_decimal.c:447-476 | with magnitudes m and n at scales s and t, the stored difference is right exactly when m >= n and the scales agree or n is 0, or m < n and n (10^s + 10^t) = 2 m 10^t; at one scale exactly when it is not negative |
| Decimal.TimesExact | types/tsql_decimal.c:478-507 | the stored product is the product exactly when it is 0 or the right scale is 0 |
| Decimal.TimesIntExact | types/tsql_decimal.c:510-536 | times an int it is right exactly when no sign is lost |
| Decimal.SumIsTotal | scripts/220_mssql_decimal.sql:82-85 | SUM over a column of one scale is the total, at that scale |
| Decimal.SumIgnoresOrder | scripts/220_mssql_decimal.sql:82-85 | and does not depend on the order of the rows |
| Decimal.CastIntExact | types/tsql_decimal.c:271-293 | an int survives the way through decimal exactly when it is not negative, or the least one |
| Decimal.CastSmallintExact | types/tsql_decimal.c:214-223 | a smallint survives exactly when it fits seven bits, or is -128 |
| Decimal.NegatorFails | types/tsql_decimal.c:392-414 | = and != with an int are never each other's negator |
| Compare.BinaryCmpIsLexicographic | types/tsql_varbinary.c:25-47 | each result of the comparison is that of the lexicographic order on byte strings |
| Compare.BinaryAntisymmetric | types/tsql_varbinary.c:25-47 | exchanging the operands changes the sign |
| Compare.BinaryTransitive | types/tsql_varbinary.c:25-47 | the order is transitive, and equality only through equality |
| Compare.TextCmpExact | types/tsql_varchar.c:40-63 | the first place with different letters decides, letters being told by their codes and a capital standing where its small letter does; at the end of a string or a NUL in both, the lengths decide |
| Compare.TextTiesNulFree | types/tsql_varchar.c:40-63 | without NUL, ties are exactly the strings of one length with the same letter, told by its codes, at every place |
| Compare.NulHides | types/tsql_varchar.c:50-51 | of what follows a NUL only the length is compared |
| Compare.BinaryOperators | types/tsql_varbinary.c:25-47 | =, < and > of varbinary are equality and the lexicographic order |
| Compare.TextOperators | types/tsql_varchar.c:40-63 | =, < and > of varchar, by the letters where the strings first differ |
| Compare.TextTransitive | types/tsql_varchar.c:40-63 | the order is transitive |
| Compare.OrderLaws | scripts/204_mssql_varbinary.sql:27-33 | both comparisons obey the laws of a b-tree operator class |
| Compare.Operators | scripts/204_mssql_varbinary.sql:15-26 | every declared commutator and negator holds |
| Compare.MaxOfIsMax | scripts/204_mssql_varbinary.sql:46-50 | max is one of the rows and none is greater |
| Compare.MaxIgnoresOrder | types/tsql_varbinary.c:233-243 | rows in another order give a tie, for varbinary the same bytes |
| Compare.MaxOfSpellings | types/tsql_varchar.c:310-320 | of two spellings that differ in the case of letters only, told by their codes, the first one stays |
| Compare.PlusCommutes | scripts/204_mssql_varbinary.sql:39-40 | joining is its own commutator exactly on repeats of one string |

## Left out

- TokenWriter.WriteToken: says nothing where an add runs over the storage that one doubling gives; there the code writes outside its memory. Responses that do are outside TokenStream.AllFit and Answer.Deliverable.
- TokenStream.Transmit: the same; a single value of more than 2048 bytes at the front of a response is such a case.
- Results.ResultsRoundTrip: leaves out CHAR and DECIMAL columns, which emit nothing in a row (NoDecoderForSilentTypes), and values that CellExact shows to be lost.
- Prelogin.PreloginRoundTrip: reads version, encryption and MARS; INSTANCE and THREADID are read differently from how they are written, and the bit field that the reader builds with a shifted option number is not modelled.
- Prelogin.WritePacket: is given the set of options; the constructor of a packet to be written leaves its bit field uninitialised, so that the set is whatever the memory holds until something sets it.
- Packet.ReadPacket: a recv() that fails is left out; it ends the connection as a missing header does.
- Names.ResolversAgree: is the intended form, with the right lengths of database and schema and the schema's own first character; what the code as written returns is in ObjectName and AgreeAsWritten. A fourth part writes outside the offset arrays and is kept apart as Overrun. Comments between the parts of a name are left out, and so are bare keywords other than INTEGER, which the grammar does not take for names.
- Names.AgreeAsWritten: speaks of database names of printable characters shorter than 262144 (SQL Server allows 128); a copy from beyond the readable memory, or of more than palloc() grants, returns nothing.
- Preserve.TranslationPreserves: asks that no literal and no condition holds the database placeholder; StatementExact, ConditionExact, IfExact and WhileExact say that this is needed. A string that exec_bool garbles counts as a query of its own, not as a list of tokens. The assignment of a selected row is that of the code on both sides; AssignExact says when it is right.
- Preserve.StatementExact: takes names and numbers as the scanner lets them through ('#' at most in front of a name, digits and points in a number).
- Exec.DoBoolExact: with an empty database name and a placeholder near the front the search never moves on; such a run counts as one that is not at its end.
- Exec.ErrorDiscipline: a run that ends Undefined (a null result dereferenced, a missing row read) or by an exception has no return code to speak about.
- Executor.Session.ExecUse: takes the bytes read behind the 32-bit copy of COUNT(*) to be zero.
- Connection.ProtocolKept: an exception inside sp_executesql or the login has no handler and ends the process; tsql_parse is a function from text to statements, and the text of LOGIN and SQL packets is given.
- Answer.BatchReachesClient: conversions of text to UCS-2 (two bytes a character) and of rows to a result-set token (one row for each) are parameters; a syntax error is sent with line 1 instead of its own.
- Decimal.TextRoundTrip: takes the output buffer as empty before it is appended to, although the code does not clear it.
- Decimal.CastIntExact: the stored precision is the number of digits, where mpz_sizeinbase may give one more; nothing reads it.
- Reads behind the end of a message: the readers of PRELOGIN and RPC give no result there, where the code reads what the memory holds.
- White space of emitted texts: a text is a sequence of PostgreSQL tokens, and the placeholder is looked for inside them; SpellsCond and SpellsStatement spell the formats out with their blanks, but without those that the format of a query prints around a clause that is not there.
- TdsMain.Main.Queries: the table of types that init_types() fills is left out, and so is its flag that the work is done already: a process serves one login.
- Locales: letters are folded as in the C locale.
- A program that never ends: its connection counts as no longer alive.
- Sockets, process hand-off, memory contexts and PostgreSQL itself: a query is answered by an arbitrary function of all queries so far, and writes to a socket are complete.
- iconv, ICU and collations: UCS-2 text is given with its UTF-8 length.
- CASE, COUNT, CONVERT, DATEPART, NEWID, subqueries, joins, column aliases, INSERT with a list of columns, GROUP BY and ORDER BY: more actions of the same kind; type names built from keywords too.
- EXEC, SET options, DDL, GRANT and CREATE DATABASE.
- Types and typmods of bound values, and the declared types of variables: DECLARE fills a map that the run does not use.
- Rounds of WHILE are bounded by fuel; MoreFuel says that the bound is never seen in an outcome.
- Unused adders of the buffer (add_cch2_utf8, add_cch4_utf8) and its padding and offset declarations.
- nvarchar comparison, replace, left, trims, case mapping, floats and the integer templates.
