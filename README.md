# ssadata / vanna training store, text utilities and chat adapters in Dafny

This project models three parts of the `vanna` fork `ssadata`:

- **The Chroma training store** (`ChromaDB_VectorStore`). It has three collections: question/SQL pairs, DDL statements and documentation. Each stored document is the JSON text of a small dict tagged with a *dataset*. Its id is a deterministic UUID of that text plus a suffix naming the collection (`-sql`, `-ddl`, `-doc`).
  - The store adds documents.
  - It removes one document by id, routing the removal by the id's suffix.
  - It purges one dataset from one or more collections.
  - It lists one dataset's training data.
  - It reshapes query results.
- **Text utilities**: `sanitize_model_name`, `strip_brackets`, `deterministic_uuid` and `convert_to_string_list`.
- **Chat adapters**: `Bedrock_Converse`, `Bedrock_Chat` and `Anthropic_Chat`. The model covers their constructors (configuration checks, defaults, API-key resolution), their message builders, and the request each builds from a role-tagged prompt.

Parts of the Python code have their own modules:

| Python | Modules |
|---|---|
| values of a config dict | `Common` |
| `json.dumps`/`json.loads` | `Json` |
| `deterministic_uuid` | `Uuid` |
| `filter_collection_by_dataset` | `DatasetFilter` |
| the store, as functions | `StoreSpec` and `Purge` |
| `get_training_data` | `Listing` |
| `_extract_documents` | `Extract` |
| the store object | `ChromaStore` |
| `sanitize_model_name` | `SanitizeModelName` |
| `strip_brackets` | `StripBrackets` |
| `convert_to_string_list` | `BusinessTerms` |
| prompts and their builders | `Messages` |
| the adapters | `Bedrock`, `Anthropic` |

The store is a class, `ChromaStore.ChromaVectorStore`. Its fields are the three collections, and its methods update them in place. Each method is proved equal to a function of `StoreSpec`, `Purge` or `Listing`. The lemmas about those functions state what the store promises. The main one is the invariant `StoreSpec.Valid`:

- ids are unique;
- each id carries its collection's suffix;
- each document is a dict the listing can read.

Every operation keeps this invariant.

A Chroma collection is modelled as an ordered sequence of `(id, document)` entries, not as a map. `get()` returns lists, and the filter and the listing promise to keep their order. `add` of an id already present changes nothing, as Chroma does.

The adapters never change their fields after construction. So an adapter is a datatype value built by a `Result`-returning constructor function. The loops of `submit_prompt` are methods proved against the functions `Messages.LastContent` (the last content of a role) and `Messages.NonSystem` (the non-system messages in order).

The following are opaque: SHA-256, SHA-1, `json.dumps` and `json.loads`. They are function-valued fields of the datatypes `Uuid.Hashes` and `Json.Codec`. The store assumes one thing of the codec, `Json.RoundTrips`: loading what was dumped gives back the dict the literal builds. The rest of the UUID construction is written out:

- UTF-8 encoding;
- hexadecimal digests;
- the nil namespace;
- the UUIDv5 version and variant bits;
- the 8-4-4-4-12 text form.

Two behaviours worth knowing:

- `sanitize_model_name("--a")` returns `"a"`. The hyphen run collapses to one hyphen before the ends are trimmed.
- `Anthropic_Chat` reads `ANTHROPIC_API_KEY` only when the config is an empty dict (see "## Findings").

## Model

| member | source | states |
|---|---|---|
| DatasetFilter.FilterCollectionByDataset | src/vanna/chromadb/chromadb_vector.py:19-33 | The loop returns exactly `Filter`: the ids and dicts of the matching documents, collected until the first exception. |
| DatasetFilter.ScanFrom | src/vanna/chromadb/chromadb_vector.py:26-30 | `ids` and `documents` have equal length. Every returned dict's `"dataset"` (default `""`) equals the tag. |
| DatasetFilter.StopFrom | src/vanna/chromadb/chromadb_vector.py:22-33 | The scan stops at the first document that fails to parse to a dict or that matches without an id. Every earlier document is a dict. |
| DatasetFilter.ScanSelectsMatches | src/vanna/chromadb/chromadb_vector.py:19-33 | The result is exactly the matching documents before the stop, in their original order, each paired with the id at its own position. |
| DatasetFilter.FilterComplete | src/vanna/chromadb/chromadb_vector.py:26-30 | When no failure occurs, every matching document and its id are returned. |
| DatasetFilter.FailureKeepsPrefix | src/vanna/chromadb/chromadb_vector.py:31-33 | After a failure at position k, the result equals the result on the first k documents. The error is swallowed, and the prefix of matches is returned. |
| StoreSpec.Insert | src/vanna/chromadb/chromadb_vector.py:120-124 | Adding an id already present changes nothing. Otherwise the entry is appended. |
| StoreSpec.Delete | src/vanna/chromadb/chromadb_vector.py:263 | Exactly the entries with that id disappear. |
| StoreSpec.DocumentFields | src/vanna/chromadb/chromadb_vector.py:107-111 | The document dict has `dataset` first and the collection's own key last. |
| StoreSpec.DocId | src/vanna/chromadb/chromadb_vector.py:117 | The id is a canonical 36-character UUIDv5 text followed by the collection's suffix, 40 characters in all. |
| StoreSpec.AddDocument | src/vanna/chromadb/chromadb_vector.py:114-126 | The document is serialised once, and its id is derived from that text. It is inserted into its own collection only. |
| StoreSpec.AddQuestionSql | src/vanna/chromadb/chromadb_vector.py:103-126 | Returns None and changes nothing exactly when the question or the SQL is None or blank. Otherwise it adds `{dataset, question, sql}` with dataset default `"default"`. |
| StoreSpec.AddText | src/vanna/chromadb/chromadb_vector.py:128-177 | `add_ddl`/`add_documentation` return None and change nothing exactly when the text is None or blank. Otherwise they add `{dataset, key: text}`. |
| StoreSpec.RemoveTrainingData | src/vanna/chromadb/chromadb_vector.py:261-272 | Returns True iff the id ends in `-sql`, `-ddl` or `-doc`. The deletion happens in that collection only. Any other id changes nothing. |
| StoreSpec.RouteOfSuffix | src/vanna/chromadb/chromadb_vector.py:262-270 | An id with a collection's suffix is routed to that collection. |
| StoreSpec.WrittenIsWellFormed | src/vanna/chromadb/chromadb_vector.py:107-114 | A written document loads back as a dict holding the dataset, the text and, for SQL, the question. |
| StoreSpec.InsertValid | src/vanna/chromadb/chromadb_vector.py:120-124 | Inserting a well-formed entry with the collection's suffix keeps the collection invariant. |
| StoreSpec.AddDocumentValid | src/vanna/chromadb/chromadb_vector.py:114-126 | Every add keeps the store invariant. Every id in a collection ends in that collection's suffix. |
| StoreSpec.AddQuestionSqlValid | src/vanna/chromadb/chromadb_vector.py:87-126 | `add_question_sql` keeps the store invariant. |
| StoreSpec.AddTextValid | src/vanna/chromadb/chromadb_vector.py:128-177 | `add_ddl` and `add_documentation` keep the store invariant. |
| StoreSpec.AddDocumentIdempotent | src/vanna/chromadb/chromadb_vector.py:114-126 | Equal inputs give equal ids. Adding the same document twice is adding it once. |
| StoreSpec.AddThenRemove | src/vanna/chromadb/chromadb_vector.py:261-270 | Removing a freshly added document by its returned id restores the store and returns True. |
| StoreSpec.RemoveTrainingDataValid | src/vanna/chromadb/chromadb_vector.py:261-272 | Removal keeps the store invariant. |
| StoreSpec.DeleteValid | src/vanna/chromadb/chromadb_vector.py:263-269 | Deleting from a collection keeps its invariant. |
| StoreSpec.DeleteAbsent | src/vanna/chromadb/chromadb_vector.py:263-269 | Deleting an id that is not present changes nothing. |
| Purge.KindNamed | src/vanna/chromadb/chromadb_vector.py:308-339 | Only `"sql"`, `"ddl"` and `"documentation"` name a collection. |
| Purge.RemoveCollection | src/vanna/chromadb/chromadb_vector.py:298-339 | Returns True iff the name is a collection name. An unknown name changes nothing. |
| Purge.PurgeRemovesDataset | src/vanna/chromadb/chromadb_vector.py:308-337 | On a valid store, the named collection ends with exactly its entries of other datasets, in order. The other collections are untouched. |
| Purge.WithoutMatchingIds | src/vanna/chromadb/chromadb_vector.py:315-316 | Removing the filtered ids one by one leaves exactly the entries not of the dataset. |
| Purge.UnmatchedMembers | src/vanna/chromadb/chromadb_vector.py:308-337 | The entries left by a purge are exactly the entries not of the dataset. |
| Purge.RemoveEachValid | src/vanna/chromadb/chromadb_vector.py:288-293 | The loop over the requested names keeps the store invariant. |
| Purge.RemoveAllValid | src/vanna/chromadb/chromadb_vector.py:315-316 | The delete loop keeps the store invariant. |
| Purge.RemoveCollectionValid | src/vanna/chromadb/chromadb_vector.py:298-339 | `remove_collection` keeps the store invariant. |
| Purge.RemoveCollections | src/vanna/chromadb/chromadb_vector.py:274-295 | Returns True iff the argument is falsy, a str or a list. Any other argument changes nothing. |
| Purge.OtherArgRejected | src/vanna/chromadb/chromadb_vector.py:284-286 | A truthy argument of another type returns False with the store unchanged. |
| Purge.UnacceptedSkipped | src/vanna/chromadb/chromadb_vector.py:288-291 | Names outside the accepted types are skipped. |
| Purge.OneNamePurges | src/vanna/chromadb/chromadb_vector.py:274-295 | A str argument naming a collection purges the dataset from that collection and leaves the other two unchanged. |
| Purge.NameListPurges | src/vanna/chromadb/chromadb_vector.py:274-295 | A non-empty list purges the dataset from exactly the collections it names. Unknown names are skipped and repeats change nothing. An empty list purges all three. |
| Purge.RemoveEachNamed | src/vanna/chromadb/chromadb_vector.py:287-292 | The loop over names with the default accepted types purges each named collection once and leaves the others unchanged. |
| Purge.UnmatchedIdempotent | src/vanna/chromadb/chromadb_vector.py:297-312 | Purging a collection a second time removes nothing more. |
| Purge.NameAccepted | src/vanna/chromadb/chromadb_vector.py:274 | Every collection name is in the default `ACCEPTED_TYPES` and names one collection only. |
| Purge.PurgeAllByDefault | src/vanna/chromadb/chromadb_vector.py:278-295 | A falsy argument purges the dataset from all three collections, keeping every other entry. |
| Purge.RemoveEachKeepsOthers | src/vanna/chromadb/chromadb_vector.py:288-293 | A purge never removes an entry of another dataset. |
| Purge.RemoveCollectionsKeepsOthers | src/vanna/chromadb/chromadb_vector.py:274-295 | `remove_collections` keeps the invariant and every entry of another dataset. |
| Listing.RowOf | src/vanna/chromadb/chromadb_vector.py:196-204 | A row holds the id, the dataset, the question (SQL only), the content under the collection's key, and the type. |
| Listing.Block | src/vanna/chromadb/chromadb_vector.py:184-207 | Every row of a block has that collection's type. |
| Listing.BlockOfDataset | src/vanna/chromadb/chromadb_vector.py:190-203 | Every row of a block belongs to the requested dataset. |
| Listing.ListingOfDataset | src/vanna/chromadb/chromadb_vector.py:179-259 | Every listed row belongs to the requested dataset, default `"default"`. |
| Listing.ListingInTypeOrder | src/vanna/chromadb/chromadb_vector.py:179-259 | DDL rows come first, then SQL rows, then documentation rows. |
| Listing.ListingRowsOfType | src/vanna/chromadb/chromadb_vector.py:184-257 | The rows of each type are that collection's block and depend on it alone. A failing collection costs only its own rows. |
| Listing.FilterOfParsed | src/vanna/chromadb/chromadb_vector.py:19-33 | When every document parses to a dict, the filter returns the ids and dicts of the dataset's entries. |
| Listing.FilterOfWellFormed | src/vanna/chromadb/chromadb_vector.py:19-33 | On a well-formed collection the filter returns the dataset's entries, and every returned dict has the keys the rows read. |
| Listing.BlockEndsWith | src/vanna/chromadb/chromadb_vector.py:190-204 | Appending a document of the dataset to a well-formed collection appends its row to the block. |
| Listing.AddedRowInBlock | src/vanna/chromadb/chromadb_vector.py:114-126 | After adding a new document, its collection's block ends with the document's row. |
| Listing.AddedTextListed | src/vanna/chromadb/chromadb_vector.py:128-177 | After `add_ddl`/`add_documentation` of new text, the listing of its dataset contains its row. |
| Listing.AddedQuestionSqlListed | src/vanna/chromadb/chromadb_vector.py:87-126 | After `add_question_sql` of a new pair, the listing of its dataset contains its row with the question. |
| Extract.LoadAll | src/vanna/chromadb/chromadb_vector.py:360-363 | Parsing succeeds iff every text parses. Then the result holds each text's parsed value at its position. |
| Extract.ExtractDocuments | src/vanna/chromadb/chromadb_vector.py:341-365 | None gives `[]`. A result without `documents` gives None. A single inner list gives its parsed values when all parse, otherwise the texts. Anything else is returned as it is. |
| Extract.ExtractWritten | src/vanna/chromadb/chromadb_vector.py:359-361 | Query answers made of written documents give back the written dicts, in order. |
| Extract.OneBadTextKeepsTexts | src/vanna/chromadb/chromadb_vector.py:362-363 | One unparseable text returns the inner list of texts unparsed. |
| ChromaStore.NResults | src/vanna/chromadb/chromadb_vector.py:47-49 | A specific `n_results_*` key wins over `n_results`, which wins over 10. |
| ChromaStore.StoreSettings | src/vanna/chromadb/chromadb_vector.py:38-63 | A missing config is `{}`. The client defaults to persistent at `.`. `"in-memory"` and a supplied client are accepted, and anything else raises. The three counts follow the precedence above. |
| ChromaStore.SharedNResults | src/vanna/chromadb/chromadb_vector.py:47-49 | With a shared `n_results`, each count is its specific key's value when that key is present, and the shared value otherwise. |
| ChromaStore.DefaultSettings | src/vanna/chromadb/chromadb_vector.py:40-49 | With no config: a persistent client at `.` and 10 results of each kind. |
| ChromaStore.Open | src/vanna/chromadb/chromadb_vector.py:38-79 | The constructor raises exactly when the settings do. Otherwise the store holds the settings and the collections' existing contents. |
| ChromaStore.ChromaVectorStore.constructor | src/vanna/chromadb/chromadb_vector.py:65-79 | The collections start with what the client already holds. |
| ChromaStore.ChromaVectorStore.AddQuestionSql | src/vanna/chromadb/chromadb_vector.py:87-126 | The new state and returned id are `StoreSpec.AddQuestionSql` of the old state. The invariant is kept. |
| ChromaStore.ChromaVectorStore.AddDdl | src/vanna/chromadb/chromadb_vector.py:128-151 | The new state and returned id are `StoreSpec.AddText(Ddl)` of the old state. The invariant is kept. |
| ChromaStore.ChromaVectorStore.AddDocumentation | src/vanna/chromadb/chromadb_vector.py:154-177 | The new state and returned id are `StoreSpec.AddText(Documentation)` of the old state. The invariant is kept. |
| ChromaStore.ChromaVectorStore.RemoveTrainingData | src/vanna/chromadb/chromadb_vector.py:261-272 | The new state and result are `StoreSpec.RemoveTrainingData` of the old state. The invariant is kept. |
| ChromaStore.ChromaVectorStore.RemoveCollection | src/vanna/chromadb/chromadb_vector.py:298-339 | The delete loop over the filtered ids yields `Purge.RemoveCollection`. The invariant is kept. |
| ChromaStore.ChromaVectorStore.RemoveCollections | src/vanna/chromadb/chromadb_vector.py:274-295 | The dispatch and loop over names yield `Purge.RemoveCollections`. The invariant is kept. |
| ChromaStore.ChromaVectorStore.RemoveEachName | src/vanna/chromadb/chromadb_vector.py:288-293 | The loop over names yields `Purge.RemoveEach`: accepted names are purged in order, others skipped. The invariant is kept. |
| ChromaStore.ChromaVectorStore.BlockOf | src/vanna/chromadb/chromadb_vector.py:184-207 | A block built by the loop equals `Listing.Block`. A missing key drops the whole block. |
| ChromaStore.ChromaVectorStore.GetTrainingData | src/vanna/chromadb/chromadb_vector.py:179-259 | The returned rows are `Listing.TrainingData` of the current collections. |
| Uuid.Utf8Char | src/vanna/utils.py:66 | A character encodes to 1 to 4 bytes. It is one byte iff it is ASCII. Continuation bytes lie in 0x80..0xBF. |
| Uuid.Utf8CharDecodes | src/vanna/utils.py:66 | Decoding the encoding of a character gives its code point back. |
| Uuid.Utf8OfAscii | src/vanna/utils.py:66 | ASCII text encodes byte for byte. |
| Uuid.Hex | src/vanna/utils.py:73 | `hexdigest` has two lowercase hex digits per byte. |
| Uuid.HexAt | src/vanna/utils.py:73 | The digits of each byte are its high and low nibble. |
| Uuid.Uuid5 | src/vanna/utils.py:75 | A UUIDv5 is the first 16 bytes of SHA-1, with the version nibble 5 and variant bits 10 set. |
| Uuid.UuidTextAt | src/vanna/utils.py:75 | `str(uuid)` is 36 characters: hex digits with hyphens at 8, 13, 18 and 23. |
| Uuid.UuidTextCanonical | src/vanna/utils.py:75 | The text of a version-5 UUID is canonical. |
| Uuid.UuidOfBytes | src/vanna/utils.py:72-77 | The output is a canonical 36-character UUIDv5 text. |
| Uuid.DeterministicUuid | src/vanna/utils.py:56-77 | A str or bytes gives a canonical UUIDv5 text. Any other type raises `ValueError`. |
| Uuid.TextSameAsItsBytes | src/vanna/utils.py:65-68 | `deterministic_uuid(s) == deterministic_uuid(s.encode("utf-8"))`. |
| Uuid.Uuid5InputOfDigest | src/vanna/utils.py:72-75 | The UUID's name is the nil namespace followed by the 64 ASCII hex digits of the SHA-256 digest. It depends on the content alone. |
| SanitizeModelName.Lower | src/vanna/utils.py:29 | Lowercasing leaves no ASCII uppercase letter. |
| SanitizeModelName.ReplaceChar | src/vanna/utils.py:32-40 | Replacement changes exactly the occurrences of one character. |
| SanitizeModelName.CollapseHyphens | src/vanna/utils.py:37 | After collapsing, no two hyphens are adjacent, and the first character is kept. |
| SanitizeModelName.KeepAllowed | src/vanna/utils.py:43 | Only ASCII letters, digits, `-` and `_` remain. |
| SanitizeModelName.Rewrite | src/vanna/utils.py:29-43 | The step-by-step rebinding equals `Filtered`. |
| SanitizeModelName.TrimEnds | src/vanna/utils.py:46-49 | Raises iff the name is empty before trimming, or a single separator. Otherwise removes one trailing, then one leading, `-` or `_`. |
| SanitizeModelName.Sanitize | src/vanna/utils.py:27-53 | A non-string raises. A string raises iff trimming fails. The output holds only lowercase ASCII letters, digits, `-` and `_`. |
| SanitizeModelName.AllowedAfterLower | src/vanna/utils.py:29-43 | The filtered name holds only lowercase letters, digits, `-` and `_`. |
| SanitizeModelName.NoUnderscoreNextToHyphen | src/vanna/utils.py:32-40 | When a space or hyphen is present, no underscore survives. |
| SanitizeModelName.NoHyphenOnlyFilters | src/vanna/utils.py:34-43 | Without spaces or hyphens, the name is only lowercased and filtered, and holds no hyphen. |
| SanitizeModelName.TrimmedEmpty | src/vanna/utils.py:46-49 | Trimming yields `""` exactly for a two-character name of separators. |
| SanitizeModelName.ExampleSpaces | src/vanna/utils.py:29-49 | Two lowercase letters or digits around a space, such as `"a b"`, become `"a-b"`; trimming leaves that as it is. |
| SanitizeModelName.ExampleOneUnderscoreTrimmed | src/vanna/utils.py:46-49 | Only one leading separator is removed: `"__x"` becomes `"_x"` for any lowercase letter or digit `x`. |
| SanitizeModelName.ExampleHyphenRunTrimmed | src/vanna/utils.py:37-49 | `"--x"` collapses to `"-x"` and is trimmed to `"x"`, for any lowercase letter or digit `x`. |
| SanitizeModelName.ExampleRejected | src/vanna/utils.py:46-53 | `""`, `"-"` and `"!"` raise `ValidationError`. |
| SanitizeModelName.FilteredUnchanged | src/vanna/utils.py:29-43 | A lowercase, allowed name with no space, and no hyphen run or underscore once it has a hyphen, passes the rewriting unchanged. |
| SanitizeModelName.LowerIdentity | src/vanna/utils.py:29 | Text without uppercase ASCII, KELVIN SIGN or dotted capital I is unchanged by lowering. |
| SanitizeModelName.KeepAllowedIdentity | src/vanna/utils.py:43 | Text of allowed characters passes the filter unchanged. |
| SanitizeModelName.TwoSeparatorsFilter | src/vanna/utils.py:29-43 | `"_-"` and `" _"` are both rewritten to `"--"`. |
| SanitizeModelName.EmptyNameAccepted | src/vanna/utils.py:46-51 | As written, `"_-"` and `" _"` return the empty name instead of raising. |
| SanitizeModelName.SanitizeNonEmpty | src/vanna/utils.py:27-53 | Corrected: any name that trims to empty raises, so every result is non-empty. |
| Common.FirstIndex | src/vanna/utils.py:90 | Finds the first occurrence of a character (the `]` that closes a match); no earlier character is that one, and None means it does not occur. |
| StripBrackets.Strip | src/vanna/utils.py:79-91 | The output is no longer than the input, and shorter by an even number of characters. |
| StripBrackets.NoOpenUnchanged | src/vanna/utils.py:90-91 | Text without `[` is unchanged. |
| StripBrackets.OnlyBracketsRemoved | src/vanna/utils.py:90-91 | Apart from brackets, the text is unchanged. |
| StripBrackets.PairsRemoved | src/vanna/utils.py:90-91 | Each replacement removes exactly one `[` and one `]`, shortening the text by 2. |
| StripBrackets.BracketedName | src/vanna/utils.py:90-91 | `[x]` followed by any text becomes `x` followed by that text, stripped, when `x` is non-empty and holds no `]`. |
| StripBrackets.EmptyBracketsKept | src/vanna/utils.py:90 | `"[]"` is unchanged. |
| BusinessTerms.ConvertToStringList | src/vanna/utils.py:93-113 | One string per row, in row order, each formatted as `business_term : …; business_description : …; related_tables : …; related_columns : …; `. |
| BusinessTerms.ReadSegmentOfSegment | src/vanna/utils.py:107-110 | One `key : value; ` segment reads back as its value. |
| BusinessTerms.ReadSegmentsOfSegments | src/vanna/utils.py:106-111 | A run of `key : value; ` segments reads back as its values, in order, when no value holds `;`. |
| BusinessTerms.ReadRowOfFormatRow | src/vanna/utils.py:106-111 | A formatted row reads back as the row when no field holds `;`. |
| Messages.SystemMessage | src/vanna/bedrock/bedrock_converse.py:52-53 | `{"role": "system", "content": m}`. The Anthropic and `Bedrock_Chat` builders are identical. |
| Messages.UserMessage | src/vanna/bedrock/bedrock_converse.py:55-56 | `{"role": "user", "content": m}`. |
| Messages.AssistantMessage | src/vanna/bedrock/bedrock_converse.py:58-59 | `{"role": "assistant", "content": m}`. |
| Messages.LastContentIsLast | src/vanna/anthropic/anthropic_chat.py:65-70 | The extracted text is the content of the last message of the role, and only that. |
| Messages.LastContentNone | src/vanna/anthropic/anthropic_chat.py:65-70 | There is no text iff no message has the role. |
| Messages.NonSystemMembers | src/vanna/anthropic/anthropic_chat.py:66-72 | A message is kept iff it is in the prompt and not a system message. |
| Messages.NonSystemAppend | src/vanna/anthropic/anthropic_chat.py:67-72 | The split of a concatenation is the concatenation of the splits: the order is preserved. |
| Messages.NonSystemKeepsAll | src/vanna/anthropic/anthropic_chat.py:66-72 | A prompt without system messages is kept as it is. |
| Messages.BuiltPrompt | src/vanna/anthropic/anthropic_chat.py:37-72 | A prompt built with the three builders splits into its system text and its user and assistant messages. |
| Bedrock.NewAdapter | src/vanna/bedrock/bedrock_converse.py:18-50 | Raises iff the config is None or lacks `modelId`. The model is `config["modelId"]`. Temperature and max tokens default to 0.0 and 1000 unless present. |
| Bedrock.ModelOnlyConfigDefaults | src/vanna/bedrock/bedrock_converse.py:97-129 | A config with only `modelId` gets temperature 0.0 and 1000 max tokens, for both adapters. |
| Bedrock.WrapAll | src/vanna/bedrock/bedrock_converse.py:77 | Each message keeps its role, and its content becomes `[{"text": c}]`. |
| Bedrock.ConverseRequestOf | src/vanna/bedrock/bedrock_converse.py:61-87 | `messages` are the wrapped non-system messages in order. `inferenceConfig` carries the fields, and `top_p` is 1. `system` is present iff the last system text is non-empty, and then is `[{"text": last}]`. |
| Bedrock.ConverseMessagesAreNonSystem | src/vanna/bedrock/bedrock_converse.py:71-77 | A wrapped message is sent iff it is a non-system message of the prompt. |
| Bedrock.ChatRequestOf | src/vanna/bedrock/bedrock_converse.py:140-161 | The body has version `bedrock-2023-05-31`, the last system text (default `""`), and one user message with the last user text (default `""`). Assistant messages are dropped. |
| Bedrock.ChatDefaults | src/vanna/bedrock/bedrock_converse.py:142-149 | A prompt of assistant messages sends empty system and user texts. |
| Anthropic.NewAdapter | src/vanna/anthropic/anthropic_chat.py:10-35 | A None config raises. A supplied client skips the key. Otherwise the key comes from `api_key` (default `""`) of a non-empty config, or from the environment for an empty one, and a falsy key raises. Temperature and max tokens default to 0.2 and 500. |
| Anthropic.ConfiguredKeyOnly | src/vanna/anthropic/anthropic_chat.py:27-30 | With a non-empty config, the environment variable makes no difference. |
| Anthropic.EnvKeyIgnoredWhenConfigured | src/vanna/anthropic/anthropic_chat.py:27-33 | As written, a config with only a model and a set environment key raises "Missing ANTHROPIC_API_KEY". |
| Anthropic.EnvKeyIgnoredWithoutConfig | src/vanna/anthropic/anthropic_chat.py:18 | As written, a None config raises before the environment is read. |
| Anthropic.NewAdapterWithEnvFallback | src/vanna/anthropic/anthropic_chat.py:10-35 | Corrected: a None config counts as empty, and the environment key is used whenever the config has no `api_key`. Without either key, construction fails with the missing-key error. Temperature and max_tokens come from the config, or default to 0.2 and 500. |
| Anthropic.FallbackAgreesWhereSourceSucceeds | src/vanna/anthropic/anthropic_chat.py:10-35 | The corrected constructor builds the same adapter wherever the original succeeds. |
| Anthropic.SplitSystem | src/vanna/anthropic/anthropic_chat.py:65-72 | The loop gives the last system text (default `''`) and the non-system messages in order, unchanged. |
| Anthropic.SubmitPrompt | src/vanna/anthropic/anthropic_chat.py:46-82 | None and empty prompts raise. A request is built iff the config has `model`. Otherwise the return fails on the unassigned `response`. |
| Anthropic.SubmitPromptWithDefaultModel | src/vanna/anthropic/anthropic_chat.py:46-82 | Corrected: every non-empty prompt yields a request, and the model defaults to `DEFAULT_MODEL`. |

## Left out

- Chroma client construction, `get_or_create_collection`, embeddings (`generate_embedding`) and the ranking of `query`. These are foreign library calls over float vectors. A query result is an input to `Extract.ExtractDocuments`.
- `get_similar_question_sql`, `get_related_ddl` and `get_related_documentation`. Each only passes a query result to `_extract_documents`, which is modelled.
- SHA-256, SHA-1, `json.dumps` and `json.loads` are opaque function values. Collision-freedom is not assumed. The codec is assumed to round-trip a dict of strings.
- `ChromaStore.ChromaVectorStore.constructor`: the persistent and in-memory clients' storage is not modelled. The collections start with whatever the client holds, given as a parameter.
- `Listing.TrainingData`: the pandas DataFrame is a sequence of row records. Column types and the index are not modelled.
- `Extract.ExtractDocuments`: a document text that is not a string is not modelled. Texts are strings.
- `Anthropic.NewAdapter`: `VannaBase.__init__` is not part of this model. Any failure it has for a None config is folded into the same error.
- `os.getenv` is a parameter (`env`).
- Four inputs cannot be represented in the model's types. Bedrock `submit_prompt(None)` raises TypeError when it iterates the prompt (src/vanna/bedrock/bedrock_converse.py:72 and :144). An explicit `dataset=None` is stored as JSON null, but the model reads None as absent and uses `"default"`. A query result with `"documents": None` makes `len(None)` raise (src/vanna/chromadb/chromadb_vector.py:359), which `Extract.ExtractDocuments` cannot express. A `remove_collections` list holding non-str items cannot be written as a `NameList` of strings.
- The Anthropic and Bedrock client calls (`messages.create`, `converse`, `invoke_model`) and response decoding are network calls. Each model stops at the request value. The `except ClientError` clauses are not modelled.
- `create_bedrock_client` is `DefaultRuntime`. Its `ImportError` when boto3 is missing is not modelled.
- `num_tokens` is a float estimate used only for printing.
- All printing and logging.
- `validate_config_path` does filesystem I/O.
- `src/vanna/google/gemini_chat.py` and `src/vanna/base/__init__.py` are not part of this model.
- Python's `str.lower()` covers ASCII plus the two non-ASCII characters whose lowercase contains an ASCII letter. Other non-ASCII characters are kept by lowercasing and dropped by the filter, as in Python.

## Findings

| source | as written | input that shows it | evidently intended | confidence | as-written member | corrected member |
|---|---|---|---|---|---|---|
| src/vanna/utils.py:46-51 | Trimming removes one separator from each end without checking what is left | `"_-"` (or `" _"`) returns `""` | An empty result raises `ValidationError`, like an empty input | not executed | SanitizeModelName.EmptyNameAccepted | SanitizeModelName.SanitizeNonEmpty |
| src/vanna/anthropic/anthropic_chat.py:18-30 | The environment key is read only when the config is falsy, and a None config has already raised at line 18 | config `{"model": "m"}` with `ANTHROPIC_API_KEY` set raises "Missing ANTHROPIC_API_KEY" | The environment supplies the key when the config has none | not executed | Anthropic.EnvKeyIgnoredWhenConfigured | Anthropic.NewAdapterWithEnvFallback |
| src/vanna/anthropic/anthropic_chat.py:59-82 | `DEFAULT_MODEL` is never used; without `"model"` in the config no request is built | any non-empty prompt with config `{"api_key": "k"}` fails at line 82 (`response` unassigned) | The model falls back to `DEFAULT_MODEL` | not executed | Anthropic.SubmitPrompt | Anthropic.SubmitPromptWithDefaultModel |
