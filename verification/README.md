# Verification of the encryption filter and its HTTP parser

This project models the PostgreSQL transparent-data-encryption filter and the HTTP parser that is built with it, and
proves what they are for.

**The SQL side.** A client's query is parsed, rewritten by three mutators in turn (blind index, probabilistic join,
encryption), printed again and sent to a backend whose tables hold ciphertexts. The result comes back through the
mutators in reverse order and is retained until it is complete. `Semantics` gives SQL a meaning (three-valued logic,
joins by nested loops, grouping, stable sorting, limits, writes), `Relation` says when an encrypted database stores a
plaintext one, and the main theorems say that a client that reads and writes through the filter sees the plaintext
database: `Sessions.SessionIsExact` for whole histories, `SelectTheorem.SelectIsExact` and `SelectIsFiltered` for one
query, `Manager.SelectReachesClient` for the messages it receives.

**The wire.** `Codec` describes message formats and their validation, reading, writing and sizing; `Decoding` the
decoder's states; `FilterStreams` the two directions of a connection. Validation is incremental, so the hard questions
are when a verdict on part of a message is final, and when cutting the stream differently changes nothing.

**The HTTP parser.** `HttpMachine` runs one byte at a time; `HttpParser` is the parser as written, with inner loops,
marks and callbacks, and refines it for any cut of the input. `HttpBodies` and `HttpUrl` prove what is parsed.

The modules follow that order:

| part | modules |
|---|---|
| bytes, keys, statements | Outcomes, Bytes, Crypto, Config, Sql |
| traversal and rewriting | Traversal, Visitor, Rewriting, Mutators, FailClosed |
| meaning and databases | Semantics, Relation, Ordering, Grouping |
| selects | JoinCorrectness, SelectCorrectness, SelectClauses, SelectTheorem, Results, Boundaries |
| writes and sessions | WriteSimulation, Sessions, Manager |
| printing | Dump, Reading |
| messages | Lists, Codec, CodecLaws, CodecRoundTrip, CodecWriting, CodecFrames, VerdictFinality, EarlyVerdicts, MessageFields, MessageTransfer, MessageTable, RowsOnWire, SelectOnWire |
| streams | Decoding, DecodingLaws, DecodingFrames, FilterStreams, PostgresFilter |
| HTTP | HttpChars, HttpMachine, HttpInvariant, HttpMarks, HttpLoops, HttpParser, HttpBodies, HttpUrl |

Code that works by expressions and recursion is modelled by functions. Code that works step by step is modelled by
classes and loops that are proved against those functions: the visitor with its flags, the mutators' loops, the dumper,
the manager, the message fields, the decoder and the filter with their buffers, the HTTP parser and the URL parser.

Cryptography is a parameter: decryption undoes encryption, HMAC does not collide, SHA-256 may. The operators whose
meaning does not matter (arithmetic, comparison, LIKE) are parameters of the SQL semantics. Random IVs, the result of
the SQL parser, the HTTP method table and the answer of the headers-complete callback are parameters too.

## Model

| member | source | states |
|---|---|---|
| `SelectTheorem.SelectIsExact` | test/test.py:64-110 | for all related databases and all accepted covered selects whose join equalities are conjuncts: the row description is accepted exactly when the labels differ, columns get their original types back, and the processed rows of the rewritten select are the rows of the original select on the plaintext database, in order |
| `SelectTheorem.SelectIsFiltered` | postgres_tde/source/filters/network/postgres_tde/mutators/probabilistic_join.cc:15-78 | the same for every accepted condition, with join equalities under OR, NOT or anywhere: the client's rows are exactly the plaintext rows on which the columns of every join equality agree, in order; they are all the rows if and only if every row agrees |
| `SelectClauses.AnsweredFiltered` | postgres_tde/source/filters/network/postgres_tde/mutators/probabilistic_join.cc:65-78 | from FROM to LIMIT, with grouping and a stable sort: the rows that agree are the same, in the same order, over the plaintext and the encrypted database |
| `SelectClauses.ConjoinedAgrees` | postgres_tde/source/filters/network/postgres_tde/mutators/probabilistic_join.cc:65-78 | with conjoined join equalities every row of the plaintext answer agrees, so none is dropped |
| `SelectTheorem.ColumnAttribution` | postgres_tde/source/filters/network/postgres_tde/mutators/encryption.cc:26-64 | a row description is accepted exactly when the labels differ, and then each result column carries the configuration and type of the column its select item names |
| `SelectTheorem.RowKept` | postgres_tde/source/filters/network/postgres_tde/mutators/probabilistic_join.cc:30-78 | the filter on a decrypted row keeps it exactly when the columns of every join equality hold the same text |
| `SelectTheorem.ListNames` | postgres_tde/source/common/sqlutils/ast/visitor.cc:52-86 | the columns and labels registered for a select list, and what each label stands for when the labels differ |
| `Relation.RewrittenAgrees` | postgres_tde/source/filters/network/postgres_tde/mutators/blind_index.cc:60-91 | every accepted expression has its three-valued plaintext value over the encrypted rows, on all rows whose join columns agree |
| `Relation.RewrittenSame` | postgres_tde/source/filters/network/postgres_tde/mutators/blind_index.cc:60-91 | without join equalities the rewriting preserves the three-valued value of every accepted expression on all rows |
| `Relation.CheckedIffVisited` | postgres_tde/source/filters/network/postgres_tde/mutators/encryption.cc:100-128 | the encryption mutator accepts an expression outside a select body exactly when all its columns are qualified and plain and it holds no star or array |
| `Relation.JoinEqualityValues` | postgres_tde/source/filters/network/postgres_tde/mutators/probabilistic_join.cc:94-151 | what a join equality compares in either database; texts tell the values of joined columns apart |
| `JoinCorrectness.FromIsFiltered` | postgres_tde/source/filters/network/postgres_tde/mutators/probabilistic_join.cc:94-151 | the combinations of rows of a FROM clause that agree on every join equality are the same, in the same order, in both databases |
| `JoinCorrectness.FromIsExact` | postgres_tde/source/filters/network/postgres_tde/mutators/probabilistic_join.cc:94-151 | with conjoined equalities the plaintext combinations are the encrypted ones that agree: truncated hashes lose nothing and the filter removes exactly the collisions |
| `Ordering.SortFilter` | postgres_tde/source/common/sqlutils/ast/dump_visitor.cc:166-175 | a stable sort by a strict weak order commutes with a filter |
| `Ordering.BeforeWeakly` | postgres_tde/source/common/sqlutils/ast/dump_visitor.cc:166-175 | the lexicographic order of ORDER BY with NULLs is a strict weak order when the backend's `<` is one |
| `Grouping.GroupedSame` | postgres_tde/source/filters/network/postgres_tde/mutators/blind_index.cc:93-115 | HAVING keeps its value where indexed columns occur only in `=` or `<>` with a literal on the right or under IS NULL |
| `Grouping.KeySame` | postgres_tde/source/filters/network/postgres_tde/mutators/blind_index.cc:93-115 | two rows have equal rewritten GROUP BY keys if and only if they have equal plaintext keys |
| `Grouping.BareColumnExactIff` | postgres_tde/source/filters/network/postgres_tde/mutators/blind_index.cc:93-115 | any other indexed column in HAVING is accepted and reads its index: the value is kept exactly when it is NULL or the text of its own index |
| `Grouping.ComparisonReadsIndex` | postgres_tde/source/filters/network/postgres_tde/mutators/blind_index.cc:93-115 | `column < literal` in HAVING is accepted as a comparison of the index with the literal, and is exact exactly when that compares alike |
| `Grouping.RangeOnIndexMisses` | postgres_tde/source/filters/network/postgres_tde/mutators/blind_index.cc:93-115 | an input on which it is not: `HAVING t.a < 'm'` keeps a group whose value is 'z', whatever the key |
| `Sessions.HistorySimulates` | postgres_tde/source/filters/network/postgres_tde/mutators/encryption.cc:130-179 | over every history of covered INSERTs and UPDATEs through the chain the encrypted database simulates the plaintext one, helper columns included |
| `Sessions.SessionIsExact` | test/test.py:40-80 | whatever was written through the filter into empty tables, a covered select answers with the plaintext rows that agree, and with all of them when join equalities are conjuncts |
| `WriteSimulation.InsertKeeps` | postgres_tde/source/filters/network/postgres_tde/mutators/blind_index.cc:117-158 | an accepted INSERT is rejected by both databases or keeps them related |
| `WriteSimulation.UpdateKeeps` | postgres_tde/source/filters/network/postgres_tde/mutators/blind_index.cc:160-189 | an accepted UPDATE is rejected by both databases or keeps them related, row by row |
| `WriteSimulation.AcceptedInsert` | postgres_tde/source/filters/network/postgres_tde/mutators/probabilistic_join.cc:153-195 | what the chain writes: originals in place or encrypted, then the index cells, then the join cells, each in the order of its columns |
| `WriteSimulation.JoinCellsOfWritten` | postgres_tde/source/filters/network/postgres_tde/mutators/probabilistic_join.cc:153-195 | the join mutator adds the cells of the written columns although it sees the index columns too |
| `FailClosed.AcceptedIsClosed` | postgres_tde/source/filters/network/postgres_tde/mutators/encryption.cc:100-128 | an accepted statement whose aliases resolve honestly uses no encrypted column outside select bodies at any depth, and writes ciphertexts or NULL to encrypted columns |
| `FailClosed.ResolutionIsNeeded` | postgres_tde/source/common/sqlutils/ast/visitor.cc:269-275 | alias resolution is exactly what the guarantee depends on: a probe of an encrypted column passes if and only if its qualifier resolves to another table |
| `FailClosed.ReusedAliasPasses` | postgres_tde/source/common/sqlutils/ast/visitor.cc:10-20 | a statement that passes because a derived table reuses an alias |
| `Visitor.Visitor.Visit` | postgres_tde/source/common/sqlutils/ast/visitor.cc:10-36 | the walk with its three flags refines the traversal function, gathers the candidates in order, and leaves the flags down on success and on every error |
| `Visitor.Visitor.VisitSelectStatement` | postgres_tde/source/common/sqlutils/ast/visitor.cc:142-194 | flags are cleared for a select and restored afterwards on both outcomes, nested selects included |
| `Visitor.Visitor.VisitTable` | postgres_tde/source/common/sqlutils/ast/visitor.cc:196-228 | after a FROM clause the join flag is up exactly when a condition of one of its own joins failed |
| `Visitor.Visitor.VisitColumnRef` | postgres_tde/source/filters/network/postgres_tde/mutators/encryption.cc:100-128 | columns are registered in select bodies, rejected outside when encrypted, and noted in groups |
| `Mutators.WrittenColumns.AppendCells` | postgres_tde/source/filters/network/postgres_tde/mutators/blind_index.cc:117-158 | the loop over written columns appends exactly the helper cells, or nothing when a value is rejected |
| `Mutators.WrittenColumns.EncryptLiterals` | postgres_tde/source/filters/network/postgres_tde/mutators/encryption.cc:130-179 | the loop replaces each literal of an encrypted column in place, under the IV drawn for its position |
| `Mutators.JoinMutator.RecordJoins` | postgres_tde/source/filters/network/postgres_tde/mutators/probabilistic_join.cc:94-151 | the loop records the comparisons of the candidates in order, up to the first error |
| `Crypto.Primitives.DecryptCipherText` | postgres_tde/source/common/crypto/utility_ext_impl.cc:32-112 | a cell encrypted for a query decrypts to the plaintext when it comes back in a row |
| `Bytes.ByteaRoundTrip` | postgres_tde/source/filters/network/postgres_tde/mutators/encryption.cc:211-221 | hexadecimal text with its prefix is read back as the bytes it was made of |
| `Manager.SelectReachesClient` | postgres_tde/source/filters/network/postgres_tde/postgres_mutation_manager.cc:45-105 | what the client receives for a covered select: restored types, then the agreeing plaintext rows once each and in order |
| `Manager.SessionIsSound` | postgres_tde/source/filters/network/postgres_tde/postgres_mutation_manager.cc:25-105 | over every session the error state is clear before every query, and the client's stream is a function of each exchange alone exactly when no description is left behind |
| `Manager.StaleIsShown` | postgres_tde/source/filters/network/postgres_tde/postgres_mutation_manager.cc:88-105 | a session in which a description left behind by a failed result is shown for the next statement |
| `Manager.MutationManager.ProcessQuery` | postgres_tde/source/filters/network/postgres_tde/postgres_mutation_manager.cc:25-37 | retained rows are dropped and the query is forwarded or answered with an error |
| `Manager.MutationManager.ProcessRowDescription` | postgres_tde/source/filters/network/postgres_tde/postgres_mutation_manager.cc:45-60 | the two describing loops, stopped by the first error, against their specification |
| `Manager.MutationManager.ProcessDataRow` | postgres_tde/source/filters/network/postgres_tde/postgres_mutation_manager.cc:62-86 | a row is discarded after an error, decrypted, and retained when its comparisons hold |
| `Manager.MutationManager.ProcessCommandComplete` | postgres_tde/source/filters/network/postgres_tde/postgres_mutation_manager.cc:88-105 | the retained description and rows are emitted in order, or the error alone |
| `Boundaries.NegatedJoinKeepsNothing` | postgres_tde/source/filters/network/postgres_tde/mutators/probabilistic_join.cc:65-78 | `WHERE NOT a.x = b.y` loses every row |
| `Boundaries.OrJoinExactIff` | postgres_tde/source/filters/network/postgres_tde/mutators/probabilistic_join.cc:65-78 | `WHERE a.x = b.y OR e` is exact if and only if no combination of rows makes e true while the joined columns differ |
| `Boundaries.LimitBeforeFilter` | postgres_tde/source/filters/network/postgres_tde/mutators/probabilistic_join.cc:65-78 | LIMIT on a select that joins: the client gets the limit's rows that agree; exact if and only if all rows up to the limit agree, or none after it does |
| `Boundaries.MixedKindsExactIff` | postgres_tde/source/filters/network/postgres_tde/mutators/blind_index.cc:191-222 | a stored number compared with a string: the index answers like the plaintext exactly when the string is both or neither of the decimal text and the raw bytes |
| `SelectOnWire.SelectThroughCodec` | postgres_tde/source/filters/network/postgres_tde/postgres_message.cc:91-110 | end to end with the codec: the client gets exactly the plaintext rows if and only if no unencrypted column holds an empty text, which arrives as NULL |
| `RowsOnWire.RowHeard` | postgres_tde/source/filters/network/postgres_tde/postgres_message.cc:91-110 | a data row as the backend writes it is read with its empty cells as NULL and everything else as sent |
| `Dump.DumpVisitor.VisitExpression` | postgres_tde/source/common/sqlutils/ast/dump_visitor.cc:22-120 | appends exactly the tokens of the expression, and fails exactly on arrays |
| `Dump.DumpVisitor.VisitSelectStatement` | postgres_tde/source/common/sqlutils/ast/dump_visitor.cc:123-189 | appends exactly the tokens of the select, whatever follows |
| `Reading.StatementRead` | postgres_tde/source/common/sqlutils/ast/dump_visitor.cc:9-18 | a grammar reads every printed statement back, whatever follows it |
| `Reading.ReadBackIff` | postgres_tde/source/common/sqlutils/ast/dump_visitor.cc:9-18 | exactly the readable statements are read back |
| `Reading.PrintsApart` | postgres_tde/source/common/sqlutils/ast/dump_visitor.cc:9-18 | two readable statements that print the same are the same: no precedence is lost |
| `Reading.UpdateAliasLost` | postgres_tde/source/common/sqlutils/ast/dump_visitor.cc:263-284 | an UPDATE alias is not printed |
| `Reading.NestedProductLost` | postgres_tde/source/common/sqlutils/ast/dump_visitor.cc:205-226 | a cross product inside a join prints as a join inside a cross product |
| `CodecLaws.AllBounded` | postgres_tde/source/filters/network/postgres_tde/postgres_message.h:85-100 | no format's validation reads past the buffer; position plus bytes left is constant |
| `CodecLaws.WrapsIffOverrun` | postgres_tde/source/filters/network/postgres_tde/postgres_message.cc:113-155 | the unsigned count of bytes left wraps around exactly when a variable-length field overruns the message |
| `VerdictFinality.VerdictIsFinal` | postgres_tde/source/filters/network/postgres_tde/postgres_message.h:33-56 | for every format: a verdict other than `more data` stays whatever bytes arrive, unless validation then meets a variable-length field that overruns the message |
| `VerdictFinality.FinalIffNoOverrun` | postgres_tde/source/filters/network/postgres_tde/postgres_message.h:330-346 | when repeated fields are not nested: the verdict on more bytes is the verdict on the message if and only if no field overruns |
| `VerdictFinality.PrefixNeedsMore` | postgres_tde/source/filters/network/postgres_tde/postgres_message.h:466-475 | for every format: every proper prefix of an exactly filled frame needs more data |
| `VerdictFinality.GivenUpOverrun` | postgres_tde/source/filters/network/postgres_tde/postgres_message.h:330-346 | an input on which a weaker condition is not enough: an item accepted without the overrun is given up when the byte arrives that completes it |
| `VerdictFinality.RepeatedCellsChange` | postgres_tde/source/filters/network/postgres_tde/postgres_message.h:330-346 | an input whose verdict changes with one more byte |
| `EarlyVerdicts.VerdictIsEarly` | postgres_tde/source/filters/network/postgres_tde/postgres_message.h:247-278 | a format without a field that extends to the end is accepted as soon as its own bytes are there |
| `EarlyVerdicts.AwaitsAllBytes` | postgres_tde/source/filters/network/postgres_tde/postgres_message.h:330-346 | one with such a field is accepted only with the whole message |
| `CodecRoundTrip.ReadAgrees` | postgres_tde/source/filters/network/postgres_tde/postgres_message.h:389-416 | for every format: reading after a valid verdict never leaves the body, uses the validated bytes and gives a typed value |
| `CodecWriting.ReadIsWrittenBack` | postgres_tde/source/filters/network/postgres_tde/postgres_message.h:418-426 | for every format: what was read is written with as many bytes, and with the same bytes exactly when no cell is empty or has a length below -1 |
| `CodecFrames.WrittenIsReadBack` | postgres_tde/source/filters/network/postgres_tde/postgres_message.h:418-426 | for every format and value it carries, in front of any bytes: the written value is validated and read back |
| `CodecFrames.SizeIsLength` | postgres_tde/source/filters/network/postgres_tde/postgres_message.h:280-286 | the computed size is at most the written length, and equal exactly when every 16-bit sum fits |
| `CodecFrames.FrameRoundTrip` | postgres_tde/source/filters/network/postgres_tde/postgres_message.h:477-482 | a written frame states its own length, is validated using exactly its bytes and read back |
| `MessageFields.ValidateField` | postgres_tde/source/filters/network/postgres_tde/postgres_message.h:85-449 | the in-place validation of any field, with position and count of bytes left, refines the specification |
| `MessageFields.ValidatePair` | postgres_tde/source/filters/network/postgres_tde/postgres_message.h:397-416 | the first field, then the rest, from where the first stopped |
| `MessageFields.ValidateWhilePossible` | postgres_tde/source/filters/network/postgres_tde/postgres_message.h:330-346 | the loop over repeated items ends where nothing is left or an item does not validate, with the cursor put back |
| `MessageTransfer.ReadMessage` | postgres_tde/source/filters/network/postgres_tde/postgres_message.h:458-464 | reading a validated body goes through and gives the value of the specification |
| `MessageTransfer.WriteMessage` | postgres_tde/source/filters/network/postgres_tde/postgres_message.h:477-482 | identifier, length and fields are appended as the specification writes them |
| `MessageTransfer.SizeOf` | postgres_tde/source/filters/network/postgres_tde/postgres_message.h:280-286 | the size loops with their 16-bit sums |
| `MessageTable.TableIsSound` | postgres_tde/source/filters/network/postgres_tde/postgres_decoder.cc:23-115 | every message of the decoder's tables is well-formed, validated incrementally and written with the type byte it came with |
| `MessageTable.TableIsShallow` | postgres_tde/source/filters/network/postgres_tde/postgres_decoder.cc:23-115 | no message of the decoder's tables nests repeated fields, so `FinalIffNoOverrun` says exactly when the verdict on any of them is final |
| `DecodingLaws.RunInTwo` | postgres_tde/source/filters/network/postgres_tde/postgres_decoder.cc:300-365 | decoding the bytes at hand and then the rest gives the state and bytes left of decoding all at once |
| `DecodingFrames.UntypedIsForwarded` | postgres_tde/source/filters/network/postgres_tde/postgres_decoder.cc:300-365 | an exactly filled frame of a message that is not acted on is passed on byte for byte, but loses the type byte when it is a dash |
| `DecodingFrames.TypedIsForwardedIff` | postgres_tde/source/filters/network/postgres_tde/postgres_decoder.cc:248-293 | a message written anew without change keeps its length, and its bytes if and only if no cell is respelled and the sums fit |
| `DecodingFrames.SplitSafeIffFilled` | postgres_tde/source/filters/network/postgres_tde/postgres_decoder.cc:300-365 | a whole frame may be cut anywhere without changing the outcome if and only if it ends where its length says or its format waits for all of it |
| `FilterStreams.ChunksAreOneStream` | postgres_tde/source/filters/network/postgres_tde/postgres_filter.cc:37-111 | for every chunking of one direction the bytes passed on, the bytes kept and the session are those of all bytes at once |
| `PostgresFilter.DecoderImpl.OnData` | postgres_tde/source/filters/network/postgres_tde/postgres_decoder.cc:120-139 | the decoder's state machine on its buffers refines the decoding function |
| `PostgresFilter.PostgresFilter.OnData` | postgres_tde/source/filters/network/postgres_tde/postgres_filter.cc:37-71 | the filter's buffers on client data refine the stream function |
| `PostgresFilter.PostgresFilter.OnWrite` | postgres_tde/source/filters/network/postgres_tde/postgres_filter.cc:84-111 | the filter's buffers on server data refine the stream function |
| `HttpInvariant.AlwaysValid` | bazel/external/http_parser/http_parser.c:643-2157 | every run of the byte-at-a-time machine from a new parser keeps the invariant of states, counters and flags |
| `HttpInvariant.NoAssertFails` | bazel/external/http_parser/http_parser.c:643-2157 | on every run from a new parser all asserts of the parser hold, and no body has both a chunked coding and a length unless that is allowed |
| `HttpMarks.ActsMatch` | bazel/external/http_parser/http_parser.c:81-142 | callbacks on marked ranges are the callbacks of the bytes one by one |
| `HttpLoops.RunAppend` | bazel/external/http_parser/http_parser.c:643-2157 | running over some bytes and then others is running over all of them |
| `HttpParser.HttpParser.Execute` | bazel/external/http_parser/http_parser.c:643-2157 | the parser with its inner loops and marks computes the run of the byte-at-a-time machine: fields, error, bytes used and callbacks |
| `HttpParser.HttpParser.ExecuteChunks` | bazel/external/http_parser/http_parser.c:643-2157 | however the input is cut into buffers the outcome is that of the whole input |
| `HttpParser.HttpParser.ExecuteEnd` | bazel/external/http_parser/http_parser.c:663-688 | the end of the input completes a body that ends with the connection, and is an error within a message |
| `HttpParser.HttpParser.HeaderFieldLoop` | bazel/external/http_parser/http_parser.c:1258-1393 | the loop over header names, its skipping included, is the machine byte by byte |
| `HttpParser.HttpParser.HeaderValueLoop` | bazel/external/http_parser/http_parser.c:1484-1708 | the loop over header values, its skipping and matching included, is the machine byte by byte |
| `HttpParser.HttpParser.BodyLoop` | bazel/external/http_parser/http_parser.c:1946-1981 | the body is passed on in pieces of at most what the length and the buffer allow |
| `HttpBodies.ChunkSizeIsExact` | bazel/external/http_parser/http_parser.c:1998-2049 | a chunk size is exactly the value of its digits, or is refused because the digits but the last are too large already |
| `HttpBodies.ContentLengthIsExact` | bazel/external/http_parser/http_parser.c:1539-1572 | a Content-Length is exactly the value of its digits, or is refused likewise |
| `HttpBodies.ChunkedBodyIsDecoded` | bazel/external/http_parser/http_parser.c:1998-2118 | for every list of chunks: the body reported is their data, the message is complete and nothing is left to be read |
| `HttpBodies.DataAsChunk` | bazel/external/http_parser/http_parser.c:1998-2118 | any data can be sent as a chunk |
| `HttpUrl.SplitIsRight` | bazel/external/http_parser/http_parser.c:2425-2545 | the parts of an accepted URL are contiguous, not empty, in order and disjoint; CONNECT has host and port only; the port is the number of its digits |
| `HttpUrl.PartsAreExact` | bazel/external/http_parser/http_parser.c:2425-2545 | each part is exactly the run of characters the URL machine assigns to it |
| `HttpUrl.HostPartsAreExact` | bazel/external/http_parser/http_parser.c:2338-2417 | the same for user info, host and port within the host's range |
| `HttpUrl.ParseUrl` | bazel/external/http_parser/http_parser.c:2425-2545 | the scanning loop, the host loop and the port number against the specification, on URLs whose offsets fit 16 bits |
| `HttpUrl.ParseHost` | bazel/external/http_parser/http_parser.c:2338-2417 | the host loop finds the parts of the specification or refuses the host |

## Findings

Inputs on which the program does not do what its design promises, each with a lemma:

- A range in HAVING (`Grouping.RangeOnIndexMisses`): mutateGroupByExpressions renames every indexed column in HAVING,
  also where it is not compared for equality, so `HAVING t.a < 'm'` compares the index. `Grouping.GroupedSame` has the
  condition under which HAVING is right.
- A negated join (`Boundaries.NegatedJoinKeepsNothing`) loses all rows; a join under OR loses rows exactly as
  `Boundaries.OrJoinExactIff` says. The filter drops rows on comparisons that the condition did not require.
- LIMIT on a join (`Boundaries.LimitBeforeFilter`): the backend limits before the filter drops rows, so a page may be
  short or empty.
- An alias used again in a derived table (`FailClosed.ReusedAliasPasses`): the alias table is one for the whole
  statement, so a comparison with an encrypted column passes in WHERE.
- A number compared with a string (`Boundaries.MixedKindsMiss`): `column = '5'` misses the row that holds 5, because
  integers are hashed as eight raw bytes and strings as text.
- A stale row description (`Manager.StaleIsShown`): after a result that failed in a row, the next statement without a
  result set is answered with the failed result's description.
- The dumper loses an UPDATE alias and the nesting of a cross product in a join (`Reading.UpdateAliasLost`,
  `Reading.NestedProductLost`).
- The operator `^` prints as nothing (dump_visitor.cc:313-314); `Reading.ReadBackIff` excludes it, exactly.
- A verdict that changes (`VerdictFinality.RepeatedCellsChange`, `GivenUpOverrun`): a cell's length is compared with all
  bytes left, its own length field included, so up to four bytes of overrun pass, the unsigned count of bytes left wraps
  around (`CodecLaws.WrapsIffOverrun`), and one more byte of input can turn a valid message into an invalid one.
- A message whose type byte is a dash loses that byte when it is passed on (`DecodingFrames.UntypedIsForwarded`).
- An empty text in an unencrypted column is read as NULL and reaches the client as NULL
  (`SelectOnWire.SelectThroughCodec`).

## Left out

- Derived tables, tables named twice in a select that joins, and unqualified columns are outside the semantics of the
  select theorems; acceptance, printing and `FailClosed.AcceptedIsClosed` cover derived tables.
- Grouping, LIMIT and OFFSET in a select with a join equality: not exact in general, see `Boundaries.LimitBeforeFilter`.
- A group is answered with its first row. PostgreSQL itself rejects a selected column that is not a key, and with the
  keys renamed to index columns it rejects a selected encrypted key; aggregates are not part of the traversal's
  expressions.
- ORDER BY with the position of an encrypted column is accepted and sorts by ciphertext; the select theorems exclude it.
- DISTINCT, the kind of a join and the alias of a derived table are fields of the external SQL parser's tree, which is
  not part of this model; the dumper prints none of them (dump_visitor.cc:123-217).
- Nested selects as expressions, function calls, CASE, BETWEEN and casts: the visitor stops the process on them.
- Floating-point literals, and text literals in hexadecimal shorter than the two characters that are dropped.
- Several statements in one query message, prepared statements and the extended query protocol.
- INSERT without a column list, INSERT from a select and UPDATE with an alias in the simulation of writes; their
  acceptance is modelled.
- Encrypted columns of a table that is not marked as encrypted, beyond what acceptance says of them.
- The dumper at the level of tokens: spelling, quoting and spacing of a token are not modelled.
- The in-place change of the parser's tree is modelled as a mapping of its expressions, so aliasing of tree nodes and
  ownership of memory are not captured.
- A backend that sends a data row without a row description, or fails after the manager has rejected part of a result.
- getSize for messages of 2^31 bytes or more.
- TLS, the upstream connection and the plumbing of filter callbacks; conversion between codec values and the manager's
  messages beyond data rows.
- HTTP callbacks that fail or pause the parser.
- Method names of HTTP requests: their table is a parameter.
- The fields of the HTTP parser's structure are one record-valued field of the class.
- SelectTheorem.SelectIsExact: for covered selects (`Covered`: columns qualified by a table of the FROM clause, no
  derived tables, groupable HAVING, and no grouping or LIMIT with a join equality), with join equalities as conjuncts;
  the other conditions are `SelectTheorem.SelectIsFiltered` and the lemmas of `Boundaries`.
- SelectOnWire.SelectThroughCodec: for covered selects without join equalities.
- Manager.SessionIsSound: for exchanges with at most one result per query, in which the backend does not fail after the
  manager has rejected part of its result.
- Grouping.GroupedSame: for groupable expressions; `Grouping.BareColumnExactIff` and `ComparisonReadsIndex` say exactly
  when the other uses of an indexed column are right.
- Sessions.HistorySimulates: for INSERTs with a column list and UPDATEs without an alias that write literals
  to typed columns.
- Reading.PrintsApart: for readable statements: no `^`, arrays or empty lists, no cross product inside a join, no UNION,
  no alias of an UPDATE's table. `Reading.ReadBackIff` says that exactly these are read back.
- VerdictFinality.FinalIffNoOverrun: for formats in which repeated fields are not nested, which covers every message of
  the decoder (`MessageTable.TableIsShallow`); for nested ones `VerdictFinality.VerdictIsFinal` goes one way.
- HttpParser.HttpParser.Execute: for headers within the maximum size (`Fits`), since the loops count a whole run of
  skipped bytes at once and report the overflow at another byte than the machine does.
- HttpUrl.ParseUrl: for URLs whose offsets fit in 16 bits, the width of the fields that hold them.
