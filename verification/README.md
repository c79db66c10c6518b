# PyODPS: models and proofs

A Dafny model of the self-contained algorithms of PyODPS, with proofs of what they promise. PyODPS is the
Python client of a data warehouse; the parts modelled here do not need the service.

- **Type strings** (`Text`, `TextForms`, `Backquotes`, `BackquoteCuts`, `TypeStrings`, `TypeSpelling`, `TypeTokens`,
  `TypeHandlers`, `TypeFeeding`, `TypeCalls`, `TypeReading`, `TypeRoundTrip`). The printer formed by the `name`
  properties and the one-pass, two-stack parser of `odps/types.py`. Every spelling of a type parses to it, and the
  printed name parses back exactly when no field name has an upper-case letter, since the parser lowers its input.
- **Values** (`Utf8`, `Values`, `ValueLaws`, `ValueCasts`). `validate_value`: casting a Python value to a nested type
  and checking it. Results conform at every depth, and conforming values are exactly those returned unchanged, with
  one exception: with `string_as_binary` and `struct_as_dict` both on, a struct's keys are stored as bytes but looked
  up as text. Lists, dictionaries and the records that structs become are not hashable, so maps keyed by them raise.
- **DAG** (`Graphs`, `Dags`, `DagRuns`, `DagSearch`, `DagPaths`, `DagObject`). The mutable graph with its optional
  reverse index, speculative edge insertion, Kahn's algorithm and the filtered breadth-first search of `odps/dag.py`.
- **CRC-32C** (`CrcRegister`, `CrcTable`, `Crc32c`, `Checksums`). The table-driven checksum of `odps/crc.py` against
  bit-by-bit polynomial division, the errors it always detects, and the running checksum of `odps/tunnel/checksum.py`.
- **SQL scanners** (`SqlLexing`, `SqlTrimming`, `SqlSplit`, `SqlPromises`, `SqlResplit`, `SqlScanner`,
  `SqlSeparators`, `SqlQuotes`, `SqlReading`, `SqlScripts`, `SqlParameters`, `SqlLiterals`, `SqlPlaceholders`). The
  statement splitter of `odps/utils.py` and the parameter substitution of `odps/dbapi.py`. Where statements end and
  which placeholders are filled is also stated without a scanner, on texts made of characters, quoted texts, comments
  and brackets. A returned statement may split further, because tidying turns other line separators into line feeds
  and so can end a line comment; when it does is stated exactly.
- **Multipart bodies** (`Multipart`, `MultipartBody`). The boundary search over bounded reads in
  `odps/lib/cgi_compat.py`, and exactly when the read limit does not show.
- **Record readers** (`DepthSplit`, `DepthReading`, `ComplexValues`, `ComplexReader`, `ComplexWriting`,
  `ComplexMeaning`, `ComplexRoundTrip`, `ComplexErrors`, `ReaderSlices`). Reading nested values from text, slicing a
  one-way stream and batching it, in `odps/readers.py`.
- **Credentials** (`Credentials`, `CredentialSafety`, `CredentialRegions`, `CredentialRuns`, `CredentialExample`).
  Threads that sign requests with one refreshing account of `odps/accounts.py`, as a state machine in which every
  access to the shared account is a step of its own. HMAC is not interpreted. The signing key is cached by date only,
  so a second region on the same day gets the first region's key; and a new secret under an old access id is not taken
  over.
- **Postfix expressions** (`Postfix`, `PostfixEval`, `PostfixObjects`). Trees rebuilt from listings in
  `odps/expressions/core.py`. A call without arguments takes the whole stack, because `stack[-0:]` is all of it.
- **JSON models** (`JsonPaths`, `JsonModels`). Reading and writing fields along key paths in `odps/serializers.py`.

Each part states the source's behaviour as functions on values, with the source's branches, error cases and constants.
Where the source changes things step by step, a class or a method with a loop is proved to compute those functions, and
the promises are proved about the functions. Exceptions are values of `Outcome`. A property that does not hold of the
code for all inputs is stated with the exact condition under which it does.

Run `dafny verify dfyconfig.toml` to check everything.

## Model

| member | source | states |
|---|---|---|
| Backquotes.RunSplitBackquoted | odps/utils.py:1340-1371 | The scanning loop returns the pieces of its specification, or `ValueError` for a backquote in the separator. |
| Backquotes.JoinPieces | odps/utils.py:1340-1371 | The separator joins the pieces back to the text, whatever the quotes and the limit on splits. |
| BackquoteCuts.SplitIsWhole | odps/utils.py:1340-1371 | No piece holds a separator outside backquotes, every cut is outside them, and the limit is kept; only the last piece may hold more when the limit is used up. |
| BackquoteCuts.JoinBlankPieces | odps/utils.py:1346 | Without a separator, the pieces are the text with single blanks taken out between them. |
| Backquotes.StripBackquotesInverts | odps/utils.py:1333-1337 | Stripping a quoted name gives the name back, with any blanks around it and backquotes inside it. |
| BackquoteCuts.DoublingIs | odps/utils.py:1374-1375 | Quoting doubles each backquote and changes nothing else. |
| BackquoteCuts.UnquotedIsStripped | odps/utils.py:1333-1337 | A name that does not stand in backquotes is only stripped. |
| TypeStrings.ParseCompositeTypes | odps/types.py:2215-2261 | The one-pass loop over token stack, bracket stack, token start and quote flag computes the character-by-character specification, errors and the bare-token fall-through included. |
| TypeHandlers.CreateRebuilds | odps/types.py:2218-2230 | A closed bracket turns its group on the stack, head and finished or raw arguments, into exactly the type it spells, paired with its field name when the head carries one. |
| TypeTokens.SplitLabelled | odps/types.py:2204-2212 | A raw field token splits at its first colon outside backquotes, the name unquoted and the type stripped. |
| TypeSpelling.NameIsTightSpelling | odps/types.py:1601-1602 | The `name` printer is the blank-free spelling of the type; also lines 1324-1325, 1487-1494, 1684-1685, 1796-1800, 1926-1928. |
| TypeTokens.NameRecovered | odps/types.py:2204-2212 | A field name, bare or backquoted, survives quoting, blanks and stripping. |
| TypeHandlers.FieldsRebuilt | odps/types.py:1837-1848 | Struct fields, seen as raw `k:v` tokens or as finished pairs, become the same fields in the same order. |
| TypeHandlers.HandlerRebuilds | odps/types.py:1353-1363 | Every composite handler rebuilds the type from the arguments that its spelling leaves on the stack; also lines 1629-1635, 1718-1724, 1837-1848. |
| TypeFeeding.FeedType | odps/types.py:2236-2258 | The stack invariant: reading a type's spelling pushes it whole if it is bracketed and otherwise leaves it in the token, on any stack. |
| TypeReading.ParseSpelling | odps/types.py:2264-2287 | Every spelling of a type with lower-case field names, with any blanks, either bracket style and bare or quoted names, parses to that type. |
| TypeRoundTrip.ValidateLower | odps/types.py:2280-2287 | No parsed type has an upper-case letter in a field name. |
| TypeRoundTrip.RoundTripIff | odps/types.py:2264-2287 | Parsing the printed name gives the type back exactly when no field name has an upper-case letter. |
| TypeRoundTrip.PickleRoundTripIff | odps/types.py:909-910 | The text that pickling stores loads as the same type exactly under that condition. |
| TypeCalls.PrimitivesAre | odps/types.py:2165-2200 | The nineteen types without arguments parse to themselves. |
| TypeCalls.CallParses | odps/types.py:2215-2261 | A name with words in brackets means what the name's handler makes of the words. |
| TypeCalls.LengthIff | odps/types.py:1310-1320 | `varchar` and `char` are accepted exactly up to length 65535, else `ValueError`; also lines 1354-1364. |
| TypeCalls.PrecisionIff | odps/types.py:1549-1559 | A decimal is accepted exactly with a precision of at least one and a scale up to it. |
| TypeCalls.VectorIff | odps/types.py:2030-2060 | A vector of floating point numbers is accepted exactly with at least one dimension. |
| TypeCalls.OtherNamesFail | odps/types.py:2218-2223 | Any other name is a `ValueError`. |
| TypeCalls.WrongWordsFail | odps/types.py:1354-1364 | So are too many words, and words that are no numbers; also lines 1549-1559. |
| TypeCalls.WrongArityFails | odps/types.py:1630-1634 | The wrong number of arguments is a `ValueError`; also lines 1354-1358, 1549-1553, 1720-1724, 2030-2035. |
| TypeCalls.VectorFails | odps/types.py:2030-2051 | So are vector elements that are no floating point numbers, and a dimension that is no number. |
| TypeCalls.NamelessFieldFails | odps/types.py:1837-1848 | A struct field without a name is a `ValueError` as a text and a `TypeError` as a type. |
| TypeCalls.FieldGivenTwice | odps/types.py:1837-1848 | A field given twice keeps its first place and takes its last type. |
| TextForms.ReadDigitsIff | odps/types.py:955-960 | `int` reads exactly the digits with single underscores between them. |
| TextForms.PaddedNumber | odps/types.py:955-960 | Blanks around a number and a sign before it are read. |
| TextForms.CaseIs | odps/types.py:2280-2283 | `lower` and `upper` change exactly the ASCII letters of the other case, each to its partner; also lines 909-910. |
| Utf8.Encode | odps/utils.py:508-516 | A text has at least one and at most four bytes a character (section 3 of RFC 3629). |
| Utf8.EncodedForm | odps/utils.py:508-516 | One byte below 0x80, two below 0x800, three below 0x10000, four from there on, with the lead and tail bits of section 3 of RFC 3629. |
| Utf8.EncodedDecodes | odps/utils.py:508-526 | Every text is read back from its bytes. |
| Utf8.DecodedEncodes | odps/utils.py:518-526 | Bytes are read as a text only if they are that text's bytes. |
| ValueLaws.ByteSizeAgrees | odps/types.py:1049-1057 | The four-bytes-a-character shortcut gives the verdict of the true UTF-8 length. |
| ValueLaws.ValidatedConforms | odps/types.py:2383-2408 | Whatever `validate_value` returns conforms to its type at every depth; also lines 947-953, 1338-1350, 1637-1643, 1727-1740, 1850-1876, 2359-2380. |
| ValueLaws.FromPairsIsDictionary | odps/types.py:1734-1740 | A dictionary built from converted pairs has distinct keys and holds only given pairs. |
| ValueLaws.KeyedConform | odps/types.py:1854-1863 | Under `struct_as_dict` the entries are the fields in order, with validated names as keys. |
| ValueLaws.ConformingStays | odps/types.py:2383-2408 | A conforming value is returned unchanged unless its struct keys are lost. |
| ValueLaws.LostKeysRaise | odps/types.py:1850-1863 | With `string_as_binary` and `struct_as_dict` together, a conforming struct value is refused: its keys are bytes and are looked up as text. |
| ValueLaws.NestedKeysRaise | odps/types.py:1727-1740 | A map keyed by arrays, maps or structs is accepted with null keys only: lists, dictionaries and struct records are not hashable (`odps/lib/xnamedtuple.py`:54-58 defines `__eq__` alone), so a valid entry with another key raises `TypeError`. |
| ValueLaws.NestedKeyRaises | odps/types.py:1727-1740 | Wherever such a key stands among the entries, the whole map raises. |
| ValueLaws.UnchangedIff | odps/types.py:2383-2408 | A value is returned unchanged exactly when it conforms and no struct keys are lost. |
| ValueLaws.ValidatedAgainIff | odps/types.py:2383-2408 | Validating a result again returns it, exactly unless the two options lose its struct keys. |
| ValueCasts.NumbersThroughText | odps/types.py:2359-2380 | A number becomes its text as a string, and that text the number again as an integer type that holds it, else `ValueError`. |
| ValueCasts.TextThroughBytes | odps/types.py:2363-2368 | A text and its bytes are the same string in either storage form. |
| ValueCasts.TupleAsDict | odps/types.py:1850-1876 | A tuple and the dictionary of its values by field name give the same struct, with either representation of structs. |
| ValueCasts.RecordByName | odps/types.py:1864-1872 | A dictionary becomes a record of the validated values under the field names, null where a name is missing. |
| ValueCasts.MissingKeyRaises | odps/types.py:1854-1863 | With `struct_as_dict` a missing name raises. |
| ValueCasts.LastPairWins | odps/types.py:1734-1740 | Of several pairs with one key the last decides. |
| ValueCasts.IntegersByWidth | odps/types.py:947-953 | Each integer type takes exactly the signed integers of its width. |
| ValueCasts.StringsBySize | odps/types.py:1063-1085 | A string is taken up to eight megabytes of UTF-8, or up to the size asked for unless that is zero. |
| ValueCasts.SizedByLength | odps/types.py:1338-1350 | `varchar` and `char` take a text up to their length in characters. |
| ValueCasts.SizedContainers | odps/types.py:1338-1350 | A container counts its items against the length before its text is taken; a number is a `TypeError`. |
| ValueCasts.OtherShapesFail | odps/types.py:1637-1643 | Anything but a list for an array, a dictionary for a map, or a tuple, record or dictionary for a struct is a `ValueError`; also lines 1727-1731, 1873-1876. |
| ValueCasts.TupleLength | odps/types.py:1864-1872 | Too few items for a record are a `TypeError` once they are valid; surplus items are ignored. |
| ValueCasts.NamedTupleAsDict | odps/types.py:1854-1863 | With `struct_as_dict` a named tuple counts as the dictionary of its own names. |
| Graphs.OrderedIsAcyclic | odps/dag.py:197-219 | A graph with a topological order has no cycle. |
| Graphs.StuckIsCyclic | odps/dag.py:197-219 | Nodes that all have predecessors among themselves contain a cycle. |
| Graphs.EdgeClosesCycle | odps/dag.py:80-102 | In an acyclic graph a new edge closes a cycle exactly when its successor already reaches its predecessor. |
| Dags.PredecessorIds | odps/dag.py:132-137 | With or without the reverse index, the predecessors are those of the graph. |
| Dags.IndepIds | odps/dag.py:112-124 | The independent nodes are exactly those without predecessors, each once. |
| Dags.EdgeKeepsState | odps/dag.py:207-214 | Removing one edge inside Kahn's loop keeps its invariant, whichever node becomes free. |
| Dags.UnfinishedIsCyclic | odps/dag.py:216-217 | If the loop ends before all nodes are listed, the original graph has a cycle. |
| Dags.SortGraph | odps/dag.py:197-219 | Every node once, every edge forward; `ValueError` exactly for a cyclic graph. |
| DagRuns.AppliedIsMirrored | odps/dag.py:47-110 | Every operation, on a fresh node where it adds one, keeps the reverse index the exact transpose. |
| DagRuns.NodeAdded | odps/dag.py:47-51 | Adding a node takes away the edges that leave it and changes no other edge. |
| DagRuns.NodeRemoved | odps/dag.py:53-69 | Exactly the node and the edges that leave or enter it go; `KeyError` exactly when it is absent. |
| DagRuns.EdgeAdded | odps/dag.py:80-102 | An accepted edge is the only new one, and a refused one leaves no trace. |
| DagRuns.EdgeRemoved | odps/dag.py:104-110 | Exactly the edge goes; `KeyError` exactly when it is absent. |
| DagRuns.RunGoesOn | odps/dag.py:47-110 | Each operation of a run acts on what those before it left, and reports last. |
| DagRuns.ReAddKeepsMirrorIff | odps/dag.py:47-51 | Adding an existing node again keeps the index exact exactly when the node had no edge from or to another node. |
| DagRuns.EdgeRefusedIff | odps/dag.py:80-102 | A validated edge is refused exactly when a path leads from its successor to its predecessor, self-loops included, and a refusal changes nothing. |
| DagRuns.RunsStayAcyclic | odps/dag.py:47-110 | Every run of fresh nodes, validated edges and removals stays acyclic and mirrored. |
| DagRuns.IndexChangesNothing | odps/dag.py:112-137 | With and without the index, every run reports the same results, leaves the same edges and finds the same predecessors. |
| DagSearch.LayerIsWalks | odps/dag.py:163-181 | The k-th layer holds exactly the ends of admissible walks of at most k steps. |
| DagSearch.LayersCovered | odps/dag.py:171-181 | An expanded search has found every node of each layer by that layer. |
| DagPaths.ListedIsReachable | odps/dag.py:163-195 | The search lists exactly the nodes that admitted paths lead down to, or, for ancestors, up to, each once and nearer ones first. |
| DagSearch.ExpandNode | odps/dag.py:174-181 | One turn of the loop keeps the search invariant and uses up unvisited nodes, so cyclic graphs end too. |
| DagSearch.Bfs | odps/dag.py:163-181 | Yields exactly the nodes reachable through admitted nodes, each once, nearer ones first; `AssertionError` exactly for an admitted start node outside the graph. |
| DagObject.Dag.constructor | odps/dag.py:33-39 | A new DAG is empty and acyclic, with an empty index if one was asked for. |
| DagObject.Dag.AddNode | odps/dag.py:47-51 | The node is in both maps without leaving edges, every other edge stays, and the state is valid for a fresh node. |
| DagObject.Dag.RemoveNode | odps/dag.py:53-69 | Exactly the node and the edges that leave or enter it go from both maps, or `KeyError` and nothing changes. |
| DagObject.Dag.RemoveFromAll | odps/dag.py:60-62 | The loop takes a removed node out of every edge set, and nothing else; also lines 67-69. |
| DagObject.Dag.ContainsEdge | odps/dag.py:71-78 | True exactly for an edge between present nodes. |
| DagObject.Dag.Validate | odps/dag.py:151-161 | Valid exactly when the graph has nodes and no cycle. |
| DagObject.Dag.AddEdge | odps/dag.py:80-102 | Exactly the edge enters both maps, or nothing changes; `KeyError` exactly for an absent node, refused exactly when a path already leads back. |
| DagObject.Dag.RemoveEdge | odps/dag.py:104-110 | Exactly that edge goes from both maps, or `KeyError` and nothing changes. |
| DagObject.Dag.TopologicalSort | odps/dag.py:197-219 | A topological order, or `ValueError` exactly for a cyclic graph; the object is not changed. |
| DagObject.Dag.Predecessors | odps/dag.py:139-143 | The predecessor set, or `KeyError` for an unknown node. |
| DagObject.Dag.Descendants | odps/dag.py:190-195 | Exactly the nodes that admitted paths lead to from the starts, each once and nearer ones first, or an error for an admitted start outside the graph. |
| DagObject.Dag.Ancestors | odps/dag.py:183-188 | The same against the edges. |
| CrcRegister.ShiftLinear | odps/crc.py:147-151 | One register shift commutes with exclusive or. |
| CrcRegister.Shift8Injective | odps/crc.py:147-151 | A byte step is a bijection on the 32-bit states. |
| CrcRegister.ByteIsDivision | odps/crc.py:147-151 | A byte step of the reflected register is eight division steps of the mirrored one. |
| CrcTable.TableIsShifts | odps/crc.py:58-123 | Each of the 256 table entries is eight shifts of its index. |
| Crc32c.TableStep | odps/crc.py:148-150 | One table look-up is one bit-by-bit byte step. |
| Crc32c.SerialIsDivision | odps/crc.py:134-161 | The register is the mirrored remainder of the textbook division by 0x1EDC6F41 (section 12.1 of RFC 3720). |
| Crc32c.PiecesAsWhole | odps/crc.py:134-151 | Feeding data in any sequence of pieces equals feeding it whole. |
| Crc32c.FedAsAskedIff | odps/crc.py:142-145 | Exactly the bytes asked for are fed unless the length is zero before the end of the buffer, where zero means the whole rest. |
| Crc32c.FedWhole | odps/crc.py:142-145 | Without offset and length the whole buffer is fed, with an offset alone everything behind it. |
| Crc32c.FedToTheEnd | odps/crc.py:142-145 | A length that passes the end is cut there. |
| Crc32c.FedFromTheEndIff | odps/crc.py:142-145 | With a negative offset the bytes asked for are fed exactly when they stop short of the end. |
| Crc32c.ChecksumIsRemainder | odps/crc.py:126-161 | The complement of the checksum is the mirrored remainder of the division that starts from all ones, and for four bytes or more of the division from zero with the first four bytes complemented. |
| Checksums.Checksum.constructor | odps/tunnel/checksum.py:27-28 | A new checksum has been fed nothing. |
| Checksums.Checksum.Update | odps/tunnel/checksum.py:61-67 | The piece is fed behind what was fed before. |
| Checksums.Checksum.GetValue | odps/tunnel/checksum.py:69-70 | The value is the remainder of everything fed. |
| Checksums.Checksum.Reset | odps/tunnel/checksum.py:72-73 | It starts over. |
| Checksums.OfPieces | odps/tunnel/checksum.py:61-70 | A new checksum, fed piece by piece, has the remainder of the pieces joined. |
| Crc32c.SerialInjective | odps/crc.py:147-151 | Equal data never brings two different registers together. |
| Crc32c.SerialIsWord | odps/crc.py:147-151 | After up to four bytes the register depends only on its old value combined with their word. |
| Crc32c.WindowErrorsDetected | odps/crc.py:134-161 | Equal-length inputs that differ only within four consecutive bytes have different checksums. |
| Crc32c.Crc32c.constructor | odps/crc.py:131-132 | A new object starts from the initial register. |
| Crc32c.Crc32c.Update | odps/crc.py:134-151 | The table-driven loop leaves the register of the bit-by-bit definition for the slice that offset and length select, the whole buffer without them. |
| Crc32c.Crc32c.Reset | odps/crc.py:153-154 | The register starts over. |
| Crc32c.Crc32c.GetValue | odps/crc.py:156-161 | The value of the register reached with some data is that data's checksum. |
| SqlTrimming.FirstStopTrim | odps/utils.py:1261-1330 | Statements of a tidied text stop at the same semicolons as before tidying. |
| SqlSplit.FirstStopCut | odps/utils.py:1290-1330 | Cut right after its semicolon, a statement stops there as it did in the whole text. |
| SqlPromises.TidyIsTrim | odps/utils.py:1261-1263 | With line feeds only, tidying line by line is dropping the blanks that end lines and the whole. |
| SqlPromises.TidyKeepsInk | odps/utils.py:1261-1263 | Tidying takes away blanks only. |
| SqlResplit.TidiedStaysIff | odps/utils.py:1261-1263 | A tidied statement splits to itself alone exactly when the text it was cut from, with line feeds for its line separators, stops nowhere or before blanks only. |
| SqlResplit.SplitsNoFurtherIff | odps/utils.py:1216-1330 | For every text that is split, each returned statement splits to itself alone exactly when each segment that gives a statement stays one with line feeds for its line separators. |
| SqlResplit.SplitsNoFurther | odps/utils.py:1216-1330 | In particular this holds for every text whose only line separator is the line feed. |
| SqlSeparators.VerticalTabSplitsFurther | odps/utils.py:1261-1263 | With a vertical tab in a line comment the condition fails: the only statement of one text splits in two. |
| SqlPromises.NothingLost | odps/utils.py:1216-1330 | The text is its segments; each drops only blanks and whole comments in front, and the statements keep every other non-blank character in order, bare semicolons aside. |
| SqlScanner.CutStatement | odps/utils.py:1239-1263 | From the recorded comment blocks the statement is cut from its first code on, and tidied. |
| SqlScanner.StatementStops | odps/utils.py:1294-1301 | At a semicolon the scanner state agrees with the specification: same statement, same rest. |
| SqlScanner.CommentCloses | odps/utils.py:1309-1318 | A closed comment is recorded and the code behind it is read on. |
| SqlScanner.SplitSqlBySemicolon | odps/utils.py:1216-1330 | The loop over quote, comment, bracket and position state returns the specified statements, or the error of an unmatched bracket. |
| SqlQuotes.LiteralEnds | odps/utils.py:1302-1308 | Behind an opening quote, the text ends at the first same quote that no backslash hides, or never. |
| SqlReading.HasReading | odps/utils.py:1269-1322 | Every text is a sequence of ordinary characters, quoted texts, comments and bracketed groups, all written out, and one of seven endings. |
| SqlReading.ReadingDecides | odps/utils.py:1269-1322 | The ending decides where the scan stops or what it raises. |
| SqlReading.StopsAtIff | odps/utils.py:1285-1301 | A statement ends at a semicolon exactly when only whole such parts come before it: a semicolon in quotes, comments or brackets never cuts, and any other does. |
| SqlReading.BracketErrorsIff | odps/utils.py:1276-1284 | `IndexError` exactly for a closing bracket with none open, `AssertionError` exactly for one that does not match. |
| SqlScripts.HasScript | odps/utils.py:1216-1330 | Every text is a sequence of such statements and a rest. |
| SqlScripts.ScriptSplits | odps/utils.py:1216-1330 | A script is split into exactly its statements, each shown from its first code and tidied; empty ones and bare semicolons are left out. |
| SqlScripts.LeadDrops | odps/utils.py:1239-1263 | Blanks and whole comments before the first code are dropped, and nothing else. |
| SqlScripts.LineEndsUnified | odps/utils.py:1232 | All three line ends become line feeds, and nothing else changes. |
| SqlParameters.LiteralCloses | odps/utils.py:753-776 | An escaped literal is scanned as one string closed by its last quote, whatever it contains. |
| SqlLiterals.EscapeStandsFor | odps/utils.py:753-766 | A backspace, tab, line feed, carriage return, null, quote or backslash is written as a backslash and the character that stands for it; every other character as itself. |
| SqlLiterals.LiteralIsRead | odps/utils.py:753-776 | Reading a literal, by the meaning of its escapes, gives its value back, whatever follows. |
| SqlLiterals.LiteralsDiffer | odps/utils.py:753-776 | Different values have different literals. |
| SqlLiterals.HolesAreRead | odps/dbapi.py:309-352 | A filled statement is its copied text and, in each placeholder's place, a literal that reads as that placeholder's value. |
| SqlPlaceholders.HasChunks | odps/dbapi.py:276-306 | Every statement is a sequence of characters, string literals in either quote and placeholders, with perhaps an open literal at the end. |
| SqlPlaceholders.ChunksDecide | odps/dbapi.py:276-306 | Its placeholders are exactly those of that sequence, at their positions and with their keys; none is inside a literal. |
| SqlPlaceholders.SlotsAreFilled | odps/dbapi.py:331-352 | Filling puts the values' literals in the placeholders, in order, and changes nothing else. |
| SqlPlaceholders.KeysAreFilled | odps/dbapi.py:309-330 | With dictionary parameters each placeholder is filled by its own key's value. |
| SqlPlaceholders.MissingKeyIsFound | odps/dbapi.py:312-315 | A placeholder without a parameter is among those found. |
| SqlParameters.PiecesWhole | odps/dbapi.py:276-306 | Finding placeholders loses no text. |
| SqlParameters.FindPlaceholders | odps/dbapi.py:276-306 | The index loop with its string state finds exactly the specified placeholders, in order. |
| SqlParameters.RescanFindsNone | odps/dbapi.py:309-352 | Scanned again, a filled statement has the same copied stretches and one closed literal for each placeholder. |
| SqlParameters.FilledHasNoPlaceholders | odps/dbapi.py:276-352 | The scanner finds no placeholder in a filled statement. |
| SqlParameters.FillAtIsFill | odps/dbapi.py:309-352 | Filling by recorded positions and filling piece by piece give the same text. |
| SqlParameters.ReplaceNamed | odps/dbapi.py:309-330 | Right-to-left splicing fills exactly the placeholders; `KeyError` exactly for a missing parameter. |
| SqlParameters.ReplacePositional | odps/dbapi.py:331-352 | Left-to-right joining fills exactly the placeholders; `ValueError` exactly for a wrong number of parameters. |
| Multipart.Reader.ReadLine | odps/lib/cgi_compat.py:718 | A bounded read returns the first line or its first `limit` bytes. |
| Multipart.Spool.Write | odps/lib/cgi_compat.py:679-693 | Writing appends to the contents, and the store stays in memory exactly while it fits. |
| Multipart.ChunkStep | odps/lib/cgi_compat.py:718-733 | A read chunk is a boundary, or leaves what is still to be stored as it was. |
| Multipart.DeferStep | odps/lib/cgi_compat.py:724-752 | Holding back the line break, even one cut in two by the limit, keeps written bytes plus held-back break equal to what was read. |
| Multipart.HoldBack | odps/lib/cgi_compat.py:735-751 | The end of a line is split off exactly as the break at its end. |
| Multipart.ReadLinesToOuterBoundary | odps/lib/cgi_compat.py:704-752 | The loop stores the lines before the first boundary seen, without their last break, and reports how the part ended. |
| MultipartBody.BodyIsPartText | odps/lib/cgi_compat.py:704-752 | For any part text without a boundary line, its line break, a boundary line and anything after it, the body is the part text (section 5.1.1 of RFC 2046), and the ending says whether the boundary was the last one. |
| MultipartBody.KindOfIff | odps/lib/cgi_compat.py:727-734 | A line is a boundary exactly when it is two dashes, the boundary, two more dashes at the last one, and blanks. |
| MultipartBody.NoBoundaryIsEof | odps/lib/cgi_compat.py:717-734 | Text none of whose lines is such a line is read to its end. |
| MultipartBody.EmptyPart | odps/lib/cgi_compat.py:704-752 | A part that starts with a boundary line has an empty body, and the ending says which boundary it was. |
| MultipartBody.StoredIsBodyIff | odps/lib/cgi_compat.py:704-752 | Under a read limit the body and the ending are the standard's exactly when no line is misjudged by its first `limit` bytes. |
| MultipartBody.FittingIsSafe | odps/lib/cgi_compat.py:718-733 | That is so when every line that starts with two dashes fits in one read. |
| DepthSplit.SplitAtDepth | odps/readers.py:31-68 | The loop over depth, quote and escape state yields the specified pieces for any limit on splits. |
| DepthSplit.PiecesRejoin | odps/readers.py:31-68 | The delimiter joins the pieces back to the text, for every text and limit. |
| DepthSplit.PiecesAreWhole | odps/readers.py:31-68 | Without a limit no piece can be cut further. |
| DepthSplit.JoinedSplits | odps/readers.py:31-68 | Pieces that cannot be cut and end outside brackets and quotes are what their join splits into. |
| DepthSplit.LimitKeeps | odps/readers.py:52-58 | A limit keeps the first pieces and leaves the rest in one; a limit below one allows one cut. |
| DepthReading.HasAtoms | odps/readers.py:35-51 | Every text is a sequence of characters, hidden characters, texts in either quote and brackets. |
| DepthReading.FirstCutIs | odps/readers.py:35-58 | The first cut is at the first delimiter of that sequence outside brackets. |
| DepthReading.NoCutIs | odps/readers.py:35-59 | Without one there is no cut, whatever is left open. |
| DepthReading.UnquoteEither | odps/readers.py:78-85 | A text in quotes of either kind is unquoted to itself. |
| ComplexReader.ParseComplexValue | odps/readers.py:88-104 | The recursive parser computes its specification, errors included. |
| ComplexReader.ParseArray | odps/readers.py:138-156 | The element loop computes the specification of an array's text. |
| ComplexReader.ParseMap | odps/readers.py:159-188 | The entry loop computes the specification of a map's text, unhashable keys included. |
| ComplexReader.ParseStruct | odps/readers.py:191-222 | The field loop computes the specification of a struct's text, missing and surplus fields included. |
| ComplexWriting.GoodPasses | odps/readers.py:31-68 | A scan passes over any well-written value at any depth without a cut and comes out as it went in. |
| ComplexMeaning.SplitPadded | odps/readers.py:138-188 | Stripping the inside and then every piece leaves the written values, wherever blanks stand. |
| ComplexMeaning.ParseMeans | odps/readers.py:88-222 | Every well-written text of a type's shape is read as what it means at every depth, errors of its leaves included. |
| ComplexRoundTrip.UnquoteInvertsIff | odps/readers.py:78-85 | A quoted string is unquoted to itself exactly when no apostrophe in it follows a backslash. |
| ComplexRoundTrip.PlainIsReadable | odps/readers.py:31-85 | Strings without backslashes are always readable. |
| ComplexRoundTrip.PrintedIsReadBack | odps/readers.py:88-222 | Printing a nested array, map or struct of integers, strings and nulls and reading the text gives the value back; maps have keys that are hashable. |
| ComplexRoundTrip.NestedKeysAreNeverRead | odps/readers.py:159-188 | A map keyed by arrays, maps or structs is read exactly when it is empty. |
| ComplexErrors.BracketsNeeded | odps/readers.py:138-140 | Arrays need square brackets, maps and structs braces, else `ValueError`; also lines 159-161, 191-193. |
| ComplexErrors.EntryNeedsColon | odps/readers.py:159-163 | A map entry without a colon is a `ValueError`. |
| ComplexErrors.UnhashableFails | odps/readers.py:187-188 | A key that cannot be hashed is a `TypeError`. |
| ComplexErrors.SurplusFails | odps/readers.py:191-222 | More values than fields are a `StopIteration` once those before are read. |
| ComplexErrors.MissingFieldsFail | odps/readers.py:191-224 | Fewer values than fields are a `TypeError`, unless structs are dictionaries. |
| ComplexErrors.KeptIntegers | odps/readers.py:129-135 | With `keep_strings` integers are read whatever their size, without it within their type's bounds. |
| ComplexErrors.KeptStrings | odps/readers.py:129-135 | With `keep_strings` sized strings are kept whatever their length, without it up to it. |
| ReaderSlices.StridedAt | odps/readers.py:301-322 | The k-th record of a slice is the one at `start + k * step`, up to the bound. |
| ReaderSlices.SliceIs | odps/readers.py:301-322 | A slice takes every step-th record from the start until records or positions run out, and the one at the start whatever the end. |
| ReaderSlices.WholeSlice | odps/readers.py:301-322 | Without start, end and step, or with zeros for start and step, it is all records. |
| ReaderSlices.Iter | odps/readers.py:301-322 | Yields exactly the strided records below the bound and consumes exactly the records read, from any position of the stream. |
| ReaderSlices.GetSlice | odps/readers.py:261-274 | `ValueError` exactly for a negative start or step or an empty span, else the slice. |
| ReaderSlices.GetIndex | odps/readers.py:261-274 | The record at the index, `IndexError` past the end, `ValueError` below zero, and how many records of the stream are read. |
| ReaderSlices.CountIsLength | odps/readers.py:240-244 | `_calc_count` is the length of a slice that ends within the records. |
| ReaderSlices.PandasAgreesIff | odps/readers.py:288-297 | `to_pandas` of a slice has the slice's records exactly when the step divides the span or exceeds it, or the records run out first. |
| ReaderSlices.Batched | odps/readers.py:400-428 | Fixed-size batches, merged at any threshold, concatenate to the records in order, none lost or repeated. |
| ReaderSlices.ToResultFrame | odps/readers.py:376-428 | The frame holds exactly the slice's records; nothing is read for a batch size below one, and an explicit `end` raises. |
| ReaderSlices.FrameCountIff | odps/readers.py:386-393 | As many records as asked for are returned exactly when the count is not zero, where one is. |
| CredentialSafety.StepMovesLocks | odps/accounts.py:128-150 | Each step enters a lock only when it is free or its own and leaves it free, to the right depth; also lines 474-488, 634-662. |
| CredentialSafety.NextLocked | odps/accounts.py:634-662 | Both locks are held by exactly the thread that is inside, in every interleaving. |
| CredentialSafety.StepLocal | odps/accounts.py:634-662 | Each read and write of the shared account keeps what its thread relies on; also lines 128-150, 474-488, 516-522. |
| CredentialSafety.NextSafe | odps/accounts.py:634-662 | A step of one thread keeps what every other thread relies on. |
| CredentialSafety.EverySignedRequestIsGenuine | odps/accounts.py:634-662 | In every interleaving, id, token and key of every signed request come from one provider answer. |
| CredentialRegions.OtherKeyHasCause | odps/accounts.py:128-150 | In every interleaving, a request signed with another region's key comes after a signed request of the same id and date that named that other region. |
| CredentialRegions.OneRegionMeansRightKeys | odps/accounts.py:128-176 | When requests signed under one id on one date name one region, each request is signed with the right key of the answer its id and token come from. |
| CredentialRuns.OthersLeaveTheAccount | odps/accounts.py:655-662 | While a thread is inside the refresh lock, no other thread touches the account. |
| CredentialRuns.NoDeadlock | odps/accounts.py:634-662 | In every reachable state with an unfinished request, some unfinished thread can move. |
| CredentialRegions.KeyIsRightIff | odps/accounts.py:128-150 | The key handed out is for the request's region exactly when no key of another region is cached for its date; with an HMAC that separates regions, the key itself is then the right one, and otherwise the wrong one. |
| CredentialRegions.KeyIsChained | odps/accounts.py:128-150 | The key is HMAC chained over date, region, service and request, in this order, from the prefixed secret. |
| CredentialRegions.KeysDiffer | odps/accounts.py:128-150 | For a hash function without collisions, keys differ whenever secret, date or region does. |
| CredentialExample.SecondRegionGetsFirstKey | odps/accounts.py:128-150 | For any two different regions, a run in which the second request of a day is signed with the first region's key, a wrong key when HMAC separates the regions. |
| CredentialRuns.RefreshTakesAnswerIff | odps/accounts.py:634-653 | After a refresh the account holds the answer exactly when the access id is new or nothing in the answer is; the cached key survives only an unchanged account. |
| CredentialRuns.ReloadRenewsIff | odps/accounts.py:464-486 | The times are renewed exactly when there is no token or one of them has passed, the account is then no longer due, and nothing else changes. |
| CredentialRuns.FailureChangesNothing | odps/accounts.py:634-656 | A failing provider leaves everything as it was. |
| Postfix.LoadedLists | odps/expressions/core.py:186-201 | Whatever listing loads, the loaded tree lists back to it. |
| Postfix.RebuildsIff | odps/expressions/core.py:186-194 | On any stack the listing of a tree with the right arities puts that tree on top exactly when no call without arguments is listed above another tree. |
| Postfix.LoadInvertsListingIff | odps/expressions/core.py:186-201 | Loading inverts listing exactly under that condition on the empty stack. |
| Postfix.LoadFailsIff | odps/expressions/core.py:181-203 | `ValueError` exactly for an unknown function, `AssertionError` when more or fewer than one tree is left. |
| Postfix.CallsWithArgumentsAreGrounded | odps/expressions/core.py:186-194 | A tree whose calls all have arguments meets it at any height; `current_timestamp_ntz` (`odps/expressions/functions.py`:101-103) takes none. |
| PostfixEval.FedEvaluatesAsRun | odps/expressions/core.py:124-154 | For any items on any stack, evaluating the trees is running the items on the stack's values, first error included. |
| PostfixEval.LoadedEvaluatesAsRun | odps/expressions/core.py:124-154 | `eval` of a loaded tree is a run of its listing on a stack of values. |
| PostfixEval.ConstantLeaf | odps/expressions/core.py:135-154 | A constant is checked, but zero, false and the empty text count as no constant. |
| PostfixEval.ReferenceLeaf | odps/expressions/core.py:135-154 | Without a constant the column is read, and with neither it is `NotImplementedError`. |
| PostfixEval.LoadedReferences | odps/expressions/core.py:197-201 | The collected references are the tree's own, from left to right. |
| PostfixObjects.Link | odps/expressions/core.py:186-194 | The loop that sets `args` and `final` leaves objects that show exactly the specified trees. |
| PostfixObjects.CollectReferences | odps/expressions/core.py:197-201 | The references are collected in listing order. |
| PostfixObjects.Parse | odps/expressions/core.py:172-201 | The returned object shows the loaded tree, is the only final one and carries its references; `AssertionError` unless one tree is left. |
| JsonPaths.RouteJsonPath | odps/serializers.py:67-81 | The key loop reads along a path, null as soon as a key is missing or null. |
| JsonPaths.PutGet | odps/serializers.py:847-864 | What is written along a path is read along it. |
| JsonPaths.PutElsewhere | odps/serializers.py:67-81 | Writing one path changes no reading and blocks no writing along a path apart from it. |
| JsonPaths.BothKeptIff | odps/serializers.py:833-864 | Two different plain values are both read back exactly when neither path is a prefix of the other. |
| JsonPaths.PutFailsIff | odps/serializers.py:67-81 | Writing raises exactly when something else than a dictionary is on the way or at the place. |
| JsonPaths.AppendToExisting | odps/serializers.py:985-995 | What is there already is appended to, or it is no list and raises. |
| JsonModels.SerialInOrder | odps/serializers.py:395-414 | The field loop computes the specified document. |
| JsonModels.MissingPlain | odps/serializers.py:847-864 | A missing plain value is written as its default, else blank, else null when required, else not at all. |
| JsonModels.MissingReference | odps/serializers.py:937-950 | A missing object raises exactly when it is required; a missing list may be blank instead; also lines 976-990. |
| JsonModels.FieldsWritten | odps/serializers.py:395-414 | Each field written leaves the earlier ones readable and the later ones writable. |
| JsonModels.ObjectComesBack | odps/serializers.py:355-414 | With paths apart, and callbacks that read back the values written, `deserial` of `serial` gives the object back with missing values filled in, nested models and lists of them included; also lines 833-864, 910-995. |
| JsonModels.CompleteComesBack | odps/serializers.py:355-414 | An object without missing values, each of which its callbacks read back, is read back as it is. |

## Left out

- Nullability: a type's `nullable` flag is not in its name, and all types are nullable here.
- Text beyond ASCII: `lower` and `upper` change ASCII letters only, and `int` reads ASCII digits only; lone surrogates do not occur.
- TypeRoundTrip.RoundTripIff: speaks of ASCII letters only, because `lower` also changes letters such as `É`, whose table is not modelled; for names of ASCII characters the condition is the source's.
- TypeRoundTrip.PickleRoundTripIff: speaks of ASCII letters only, because `upper` also changes letters such as `ß`, which becomes two; for names of ASCII characters the condition is the source's.
- TypeReading.ParseSpelling: takes a name without ASCII upper-case letters as lower case, for the same reason.
- Malformed type strings: nothing is promised about them; an unclosed bracket still parses to a bare token, as in the source.
- Validation of types other than integers, strings, `varchar` and `char` is a parameter of the model; so are `str` of a container and `int` of bytes.
- Booleans as integers and numpy scalars: a Python value that is both is not modelled.
- Node identity: DAG nodes are compared by identity, so the `_map` from ids to nodes is left out, and the order in which dictionaries and sets are listed is arbitrary.
- DagObject.Dag.AddNode: does not keep the index exact when an existing node is added again, which DagRuns.ReAddKeepsMirrorIff characterises.
- The compiled CRC variant and the CRC-32 wrapper around zlib are foreign code; the byte table is a function.
- Bytes given to the SQL splitter, SQL parameters that are not strings, and containers other than dictionaries and sequences, which are a `TypeError`; which characters are letters is a parameter, and quotes are none.
- Multipart fields: the length limit, decoding of text fields, the byte counters, reading to the end without a boundary, and skipping.
- Vectors and the casting of primitive types other than integers and strings in nested values are parameters of the reader.
- ComplexRoundTrip.PrintedIsReadBack: for strings kept as text, because with `string_as_binary` they are read as bytes.
- ReaderSlices.Iter: asks for a start and a step that are not negative, as `__getitem__` does, because a negative step makes the source loop forever.
- Slices are read to their end; a slice that is dropped half way leaves the stream where it stopped.
- Result frames are the sequences of their records: columns, data types and the branch for readers that hold raw CSV text, which skips batching, are left out.
- Rounding in `_calc_count`, which divides floats, is left out: the quotient is exact.
- Credentials from environment variables or files, the token timestamp header, the canonical string and the HTTP format.
- Direct calls of `calc_auth_str` that bypass the refresh lock, and a change of the signature prefix while requests are signed.
- Evaluation on data frames, the text form of expressions, and the types of constants, which a parameter checks.
- Nested dictionaries are values, so two references to one nested dictionary are not modelled.
- JSON: defaults of reference fields, `check_before`, fields set on the parent, plain list fields, raw fields, encoded text where an object is expected, and the order of keys.
- XML models, `json.dumps` and `json.loads`.
- The REST client, tunnels, tables, the data-frame library, the console and the scripts.
