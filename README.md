# A verified model of a Russian-language retrieval engine

This project models the indexing and query pipeline of a small Russian search
engine, and proves properties of that model. The pipeline has five parts:

- **Boolean search** (`boolean_search.py`):
  - AND/OR/NOT are spelled as `&&`/`||`/`!` and the query is lexed;
  - a shunting-yard converter turns the tokens into postfix (RPN);
  - a stack machine evaluates the RPN with set algebra (intersection, union,
    complement against the set of all document ids).
- **Inverted index** (`create_inverted_index.py`):
  - the `id,url` manifest is read into a dictionary;
  - postings `lemma -> sorted document ids` are built from the per-document
    lemma files;
  - the postings are written in a fixed JSON-like layout.
- **TF-IDF statistics** (`calculation_TFIDF.py`):
  - the words of a page are cleaned and split;
  - term frequencies are computed over the document's valid tokens and over
    its lemma families;
  - document frequencies are counted over the corpus;
  - IDF is `ln(N / (df + 1))`;
  - each term gets a weight row `term idf tf*idf`.
- **Vector search** (`search_system.py`), an engine object whose loader fills
  three tables:
  - `term_idf`;
  - the dense `term_index`;
  - the sparse `doc_vectors`.

  A query is tokenized, vectorised, scored by cosine similarity against every
  document, ranked, cut at `top_n`, and named by its page files.
- **Tokenizer** (`tokenizer.py`):
  - the page text is cleaned and split into hyphenated Cyrillic words;
  - tokens are filtered and grouped into lemma families;
  - the lemma file lines are formatted;
  - a page is skipped when its name or id is unusable or already seen.

The library calls are parameters of the model:
- `math.log` (`ln`, strictly increasing with `ln(1) == 0` where a property
  needs it);
- `np.linalg.norm` (`norm`, non-negative with `norm({}) == 0` where needed);
- `float()` (`parseFloat`);
- pymorphy's normal form (`normalForm`);
- pymorphy's score and part-of-speech test (`acceptable`);
- NLTK's Russian stop-word list (`nltkStop`).

Files are given as their lines, and a directory as a map from file name to
lines. A directory listing is a sequence of names. Floats are exact `real`s.

Modules, one per file:
- `Wrappers`: Option and Result.
- `Text`: character classes, `strip`, `split`, `join`, `int()`/`str()` and
  `clean_text`.
- `Order`: string order, `sorted` of sets, the stable descending sort.
- `ODicts`: Python's insertion-ordered dict and `Counter`.
- `BooleanSearch`, `InvertedIndex`, `TfIdf`, `VectorSearch`, `Tokenizer`: the
  five parts of the pipeline.

Four behaviours of the code are worth knowing, and the model keeps each one:
- **Unmatched `(`.** The converter does not reject it. Every `(` the query
  leaves open is flushed into the RPN at the end
  (`BooleanSearch.RpnUnmatchedOpen`). The evaluator then looks it up as the
  term `(` (`BooleanSearch.UnmatchedOpenIsTerm`).
- **Negation.** `!` pops an earlier `!`, because the comparison is `>=`. So
  `NOT NOT x` without parentheses raises and yields `[]`
  (`BooleanSearch.DoubleNotFaults`).
- **Malformed manifest lines.** A line with a comma but a non-integer id makes
  `int()` raise, and that ends `load_index` (`InvertedIndex.ManifestFails`).
- **Missing per-document files.** A missing token or lemma file raises in the
  first loop of `main` and ends the run. Only a document without a page is
  skipped (`TfIdf.MainOutcome`).

## Model

| member | source | states |
|---|---|---|
| BooleanSearch.Lex | boolean_search.py:13 | every token the lexer emits is `(`, `)`, `&&`, the double bar, `!` or a non-empty run of `\w` characters |
| BooleanSearch.LexSpelled | boolean_search.py:13 | a token list written out with single spaces lexes back to exactly that list: no token is lost, split or merged |
| BooleanSearch.TokenizeIgnoresCase | boolean_search.py:12-13 | lower- and upper-casing the query does not change its tokens, so connectives are recognised in any case |
| BooleanSearch.TokenizeWithoutLatin | boolean_search.py:12-13 | a query without Latin letters is lexed exactly as its upper-cased text: the replacements touch nothing |
| BooleanSearch.TokenizeBrand | boolean_search.py:12-13 | the replacement is a plain substring replacement: `brand` lexes as the word `BR` followed by `&&` |
| BooleanSearch.TokenizeAndNot | boolean_search.py:12-13 | `a AND NOT b` for two Cyrillic words lexes as `[a, &&, !, b]`, upper-cased |
| BooleanSearch.PopToParen | boolean_search.py:24-28 | the `)` branch pops operators to the output down to the nearest `(` and drops that `(`, or empties the stack |
| BooleanSearch.PopOperators | boolean_search.py:29-31 | the operator branch pops operators of precedence at least the incoming one, stopping at `(` |
| BooleanSearch.ToRpn | boolean_search.py:16-39 | the shunting-yard loop over an output list and a stack list returns the specified RPN |
| BooleanSearch.RpnDropsRParen | boolean_search.py:24-28 | the RPN never contains `)` |
| BooleanSearch.RpnKeepsOperands | boolean_search.py:33-34 | the RPN's operands are the input's operands, in input order, lower-cased |
| BooleanSearch.RpnKeepsOperators | boolean_search.py:29-37 | each operator occurs in the RPN exactly as often as in the input |
| BooleanSearch.RpnBracketed | boolean_search.py:16-39 | a fully bracketed query converts to its postfix form |
| BooleanSearch.RpnLeftFirst | boolean_search.py:17-30 | of two binary operators, the left one is applied first unless the right one binds tighter (left associativity through `>=`) |
| BooleanSearch.RpnAndFirst | boolean_search.py:17-30 | `a OR b AND c` converts to `a b c && OR`, with OR written as the double bar |
| BooleanSearch.RpnUnmatchedOpen | boolean_search.py:21-37 | for every token list, the RPN holds exactly as many `(` as the query leaves open (each `)` closes the nearest open one, and a `)` with none open closes nothing): every unmatched `(` is flushed into the output at the end, and no other `(` reaches it |
| BooleanSearch.RpnOpenWord | boolean_search.py:21-37 | the smallest case: `( a` becomes `a (` |
| BooleanSearch.RpnUnmatchedClose | boolean_search.py:24-28 | an unmatched `)` is dropped |
| BooleanSearch.RpnDoubleNot | boolean_search.py:30-31 | a second `!` pops the first, so the RPN of `! ! ...` starts with `!` |
| BooleanSearch.RunKeepsOutput | boolean_search.py:21-34 | the conversion loop only ever appends to the output |
| BooleanSearch.EvaluateRpn | boolean_search.py:42-60 | the evaluation loop over a stack of sets fails exactly when a pop fails; otherwise it returns the sorted top set |
| BooleanSearch.FaultStays | boolean_search.py:46-56 | once a pop has failed, the remaining tokens cannot recover the evaluation |
| BooleanSearch.EvaluateQuery | boolean_search.py:63-73 | returns the specified result, strictly ascending, holding only ids of the universe or of the postings, and `[]` for a blank query |
| BooleanSearch.DenoteBounded | boolean_search.py:46-58 | every result id is in the universe or in some posting |
| BooleanSearch.DenoteNotWithinUniverse | boolean_search.py:54-56 | a query whose last operator is `!` gives a subset of the universe |
| BooleanSearch.DenoteEmpty | boolean_search.py:60 | an empty RPN gives no documents |
| BooleanSearch.DenoteTopOnly | boolean_search.py:58-60 | only the top set is the result: operands left below it are ignored |
| BooleanSearch.DenoteFaults | boolean_search.py:46-56 | an operator with no operand before it raises, whatever follows |
| BooleanSearch.DoubleNotFaults | boolean_search.py:30-56 | `NOT NOT x` without parentheses raises, whatever `x` is |
| BooleanSearch.UnmatchedOpenIsTerm | boolean_search.py:45-58 | from any stack, evaluating any RPN gives the same result as evaluating it with every `(` replaced by the word `(`: a stray `(` is looked up in the index like any term |
| BooleanSearch.OpenWordIsTerm | boolean_search.py:36-60 | so the query `( a` is answered with the documents posted under the term `(` |
| BooleanSearch.EvalPost | boolean_search.py:45-58 | evaluating a query's postfix form pushes exactly its set-algebra meaning: `&&` is intersection, the double bar union, `!` complement in the universe, and an unknown term is empty |
| BooleanSearch.DenoteBracketed | boolean_search.py:16-60 | a fully bracketed query converts and evaluates to exactly its meaning |
| BooleanSearch.AndWithinOr | boolean_search.py:46-53 | `(x AND y)` finds a subset of what `(x OR y)` finds |
| BooleanSearch.DoubleNegation | boolean_search.py:54-56 | `(NOT (NOT x))` finds the documents of `x` that are in the universe |
| BooleanSearch.NegationCovers | boolean_search.py:50-56 | `((NOT x) OR x)` finds the universe together with the documents of `x` |
| BooleanSearch.QueryAndNot | boolean_search.py:63-73 | `a AND NOT b` for two lower-case Russian words finds the sorted documents of `a` in the universe without those of `b` |
| BooleanSearch.PhysicsWithoutChemistry | boolean_search.py:46-60 | postings `{a: [1,2,3], b: [2]}` with universe `{1,2,3}` give `[1, 3]` for `a AND NOT b` |
| InvertedIndex.ParseEntry | create_inverted_index.py:14-17 | a line is skipped exactly when its stripped text has no comma |
| InvertedIndex.EntryParts | create_inverted_index.py:14-17 | a record is an integer, then the first comma, then the URL, which keeps any further commas |
| InvertedIndex.EntryRoundTrip | create_inverted_index.py:14-17 | `str(n) + "," + url` reads back as `n` with `url`, whatever commas the URL holds |
| InvertedIndex.LoadIndex | create_inverted_index.py:10-18 | the line loop returns the specified dictionary, or the error of the first line whose `int()` raises |
| InvertedIndex.ManifestFails | create_inverted_index.py:14-17 | the load fails exactly when some line has a comma but no integer before it, an integer being what `int()` reads: an optional sign and ASCII digits with single underscores allowed between digits |
| InvertedIndex.ManifestKeys | create_inverted_index.py:15-17 | the loaded ids are exactly those that some record line names |
| InvertedIndex.ManifestLastWins | create_inverted_index.py:17 | an id maps to the URL of the last line that names it |
| InvertedIndex.FileDocOf | create_inverted_index.py:25-29 | the lemma file written for document `n` is read back as document `n` |
| InvertedIndex.BuildInvertedIndex | create_inverted_index.py:21-40 | visits the files in sorted-name order and returns the specified postings |
| InvertedIndex.BuildFrom | create_inverted_index.py:24-40 | the nested loops over a listing return the postings of that listing |
| InvertedIndex.VisitFile | create_inverted_index.py:25-38 | a file is skipped unless it ends with `-lemmas.txt` and its prefix before `-` is an integer that `int()` reads (so `1_2-lemmas.txt` is document 12); otherwise each of its lines posts the document |
| InvertedIndex.ReadLemmaFile | create_inverted_index.py:35-38 | each line posts the document under the line's first word; a blank line raises IndexError |
| InvertedIndex.Postings | create_inverted_index.py:36-40 | document `d` is in the posting of `L` exactly when some lemma file of `d` has a line starting with `L`; every posting is non-empty and strictly ascending |
| InvertedIndex.IndexFails | create_inverted_index.py:36 | the build fails exactly when some lemma file has a blank line |
| InvertedIndex.ListingOrderIrrelevant | create_inverted_index.py:24-40 | the postings depend only on which files are listed, not on the listing order |
| InvertedIndex.AddFilesNoneEmpty | create_inverted_index.py:38 | no lemma ends up with an empty set of documents |
| InvertedIndex.ErrIsIndexError | create_inverted_index.py:36 | the only error the build raises is IndexError |
| InvertedIndex.SaveInvertedIndex | create_inverted_index.py:43-57 | the written text is the opening, the entries in ascending lemma order, then the closing with the documents section |
| InvertedIndex.WriteEntries | create_inverted_index.py:45-57 | the `enumerate` loop writes the entries for the lemmas in the given order |
| InvertedIndex.EntryRead | create_inverted_index.py:50-52 | an entry line reads back as its lemma, its ids sorted, and whether a comma follows |
| InvertedIndex.IdsRoundTrip | create_inverted_index.py:50 | ids joined by `", "` read back as the same ids |
| InvertedIndex.SavedEntries | create_inverted_index.py:48-52 | entry `k` is for the `k`-th lemma in strictly ascending order: it holds that lemma's sorted ids, and has a trailing comma exactly when it is not the last |
| Text.CleanTextIsClean | calculation_TFIDF.py:46-50 | `clean_text`'s output holds only lower-case а-я/ё, `-` and single spaces, with no space at either end |
| Text.CleanTextFixes | calculation_TFIDF.py:46-50 | text that is already clean is left alone |
| Text.CleanTextIdempotent | calculation_TFIDF.py:46-50 | `clean_text` is idempotent |
| Text.StripEmptyIffBlank | boolean_search.py:64 | `s.strip()` is empty exactly when `s` is blank |
| Text.SplitWsJoin | calculation_TFIDF.py:75 | `" ".join(words).split()` is `words` |
| Text.JoinSplit | calculation_TFIDF.py:76 | joining the pieces of `s.split(c)` with `c` gives `s` back |
| Text.SplitFirst | create_inverted_index.py:14 | `s.split(',', 1)` has two parts exactly when `s` has a comma; the first part has no comma, and putting the comma back between them gives `s` |
| Text.ParseIntOfIntToStr | create_inverted_index.py:17 | `int(str(n)) == n` |
| Text.ParseGroupedPair | create_inverted_index.py:17 | `int()` accepts an underscore between two digits and ignores it, so `1_2` reads as 12 |
| TfIdf.SplitWords | calculation_TFIDF.py:74-76 | the loop returns the specified `words`: every field of the cleaned text split on `-`, in order |
| TfIdf.WordsOfCleanText | calculation_TFIDF.py:73-76 | every character of every word of a cleaned page is a lower-case Cyrillic letter |
| TfIdf.ValidTokensMembers | calculation_TFIDF.py:81 | a valid token is exactly the non-empty stripped text of some line of the token file |
| TfIdf.TokenCountsAre | calculation_TFIDF.py:83 | a word is counted exactly when it is a word of the page and a valid token, and then with its number of occurrences |
| TfIdf.TokenTotal | calculation_TFIDF.py:83-84 | the token total is the number of words that are valid tokens |
| TfIdf.Denominator | calculation_TFIDF.py:84 | the denominator is positive, and it is the total whenever the total is positive |
| TfIdf.ComputeTf | calculation_TFIDF.py:53-54 | `compute_tf` keeps exactly the keys of the counts |
| TfIdf.TfBounds | calculation_TFIDF.py:53-84 | each term frequency lies in [0, 1], and it is positive exactly when the term was counted |
| TfIdf.FrequencyAt | calculation_TFIDF.py:110 | `tf.get(t, 0.0)` is `t`'s count over the denominator, with count 0 for a term that was not counted |
| TfIdf.TfSumsToOne | calculation_TFIDF.py:53-84 | when anything was counted, a document's frequencies add up to 1 |
| TfIdf.ComputeIdf | calculation_TFIDF.py:57-58 | `compute_idf` is keyed by exactly the document-frequency keys |
| TfIdf.IdfAntitone | calculation_TFIDF.py:57-58 | with `ln` increasing, a term in more documents never has a larger IDF |
| TfIdf.IdfSign | calculation_TFIDF.py:57-58 | IDF is positive exactly when `df + 1 < N` and zero exactly when `df + 1 == N`; it is negative once `df >= N` |
| TfIdf.ReadLemmaForms | calculation_TFIDF.py:89-96 | the lemma-file loop returns the specified `lemma_forms` dict |
| TfIdf.FormsOf | calculation_TFIDF.py:95 | the forms are the fields after the first, or `[lemma]` when it is alone |
| TfIdf.FormsKeys | calculation_TFIDF.py:92-96 | a word has forms exactly when it is the first field of some non-blank line |
| TfIdf.FormsLastWins | calculation_TFIDF.py:96 | the last line of a lemma decides its forms |
| TfIdf.CountLemmas | calculation_TFIDF.py:98-100 | the loop returns the specified lemma counts, with the keys in `lemma_forms` order |
| TfIdf.FormsCountZero | calculation_TFIDF.py:100 | a lemma counts nothing exactly when none of its forms is among the words |
| TfIdf.LemmaTfZero | calculation_TFIDF.py:100-103 | a lemma has frequency 0 exactly when none of its forms occurs among the words |
| TfIdf.WriteRows | calculation_TFIDF.py:108-118 | the writing loops return one row per term, in the order given |
| TfIdf.RowsOf | calculation_TFIDF.py:109-118 | row `i` is for term `i`; a term missing from TF or from IDF gets weight 0 |
| TfIdf.TokenRow | calculation_TFIDF.py:109-112 | the `i`-th token row is the `i`-th valid token, with its occurrences over the denominator as TF and its IDF or 0.0 |
| TfIdf.LemmaRow | calculation_TFIDF.py:115-118 | the `i`-th lemma row is the `i`-th lemma of `lemma_forms`, with its form count over the denominator as TF and its IDF or 0.0 |
| TfIdf.ProcessDocument | calculation_TFIDF.py:63-118 | returns the specified weight rows of one document; nothing is written without a page, and a missing token or lemma file raises |
| TfIdf.AddTokens | calculation_TFIDF.py:145 | `token_doc_freq.update(set(tokens))` adds exactly the document's tokens to the keys |
| TfIdf.CountLemmaLines | calculation_TFIDF.py:148-151 | each line adds 1 to its first word's count; a blank line raises IndexError |
| TfIdf.CountDocuments | calculation_TFIDF.py:141-151 | the document loop returns the specified token and lemma document frequencies |
| TfIdf.AddLemmasCounts | calculation_TFIDF.py:149-151 | the lemma loop succeeds exactly when no line is blank, and each lemma gains one count per line it starts |
| TfIdf.DocFrequenciesAre | calculation_TFIDF.py:141-151 | the loop succeeds exactly when every file is there and readable; a token's count is then the number of documents listing it (once per document), and a lemma's count the number of lemma-file lines starting with it |
| TfIdf.DocIds | calculation_TFIDF.py:131 | a document id is the name of its token file up to the first `-` |
| TfIdf.TokenFileId | calculation_TFIDF.py:131-142 | an id without `-` is read back from the name of its token file |
| TfIdf.ComputeStatistics | calculation_TFIDF.py:125-166 | `main` returns the specified outcome over the token files in sorted order, each document taking the page that `html_files` files under its id in the page listing |
| TfIdf.HtmlFilesLastWins | calculation_TFIDF.py:157 | an id has a page exactly when some listed `.html` file has it as its prefix before `_`; of several such files the one listed last wins |
| TfIdf.RunListing | calculation_TFIDF.py:131-166 | the body of `main` over a listing returns the specified outcome |
| TfIdf.WriteWeights | calculation_TFIDF.py:159-164 | the second loop runs `process_document` for every document in order |
| TfIdf.MainOutcome | calculation_TFIDF.py:130-164 | `main` stops before any IDF exactly when there is no token file; it fails exactly when some needed file is missing or a lemma file has a blank line; otherwise it writes the documents that have a page, in order |
| TfIdf.NoTokensIff | calculation_TFIDF.py:130-136 | `main` stops with "no tokens" exactly when the directory has no token file |
| VectorSearch.IdfFilesOk | search_system.py:37-42 | after pass one succeeds, every line of every file had exactly three fields and its term was registered |
| VectorSearch.IdfFilesFails | search_system.py:37-42 | a failure in pass one (a line without exactly three fields, or an IDF field that does not parse) ends the load with that error |
| VectorSearch.TermIndexOf | search_system.py:44 | the term index is keyed by exactly the vocabulary and numbers each term below its size |
| VectorSearch.TermIndexDense | search_system.py:44 | the `k`-th term in sorted order is numbered `k` |
| VectorSearch.TermIndexInjective | search_system.py:44 | distinct terms get distinct numbers |
| VectorSearch.TermIndexOrdered | search_system.py:44 | numbers follow the terms' sorted order in both directions |
| VectorSearch.VectorFilesFails | search_system.py:46-53 | a file whose vector fails to load fails the whole pass |
| VectorSearch.LoadLookupsSucceed | search_system.py:37-54 | after pass one succeeds, pass two can only fail with ValueError, never KeyError; every stored dimension is a valid term number |
| VectorSearch.VectorSearchEngine.LoadTerms | search_system.py:35-42 | pass one fills `term_idf` in place and returns the vocabulary, as specified |
| VectorSearch.VectorSearchEngine.LoadVector | search_system.py:48-53 | the vector of one file, from field 0 looked up in `term_index` and field 2 parsed |
| VectorSearch.VectorSearchEngine.LoadVectors | search_system.py:46-54 | pass two fills `doc_vectors` in place, one entry per file keyed by its document id |
| VectorSearch.VectorSearchEngine.LoadIndex | search_system.py:34-54 | `_load_index`: on success of pass one, `term_idf` and `term_index` are its vocabulary, and `doc_vectors` is pass two's result; a failure is reported |
| VectorSearch.ClassRunEnd | search_system.py:63 | the end of the run of `[а-яё-]` characters from a position |
| VectorSearch.LastBoundary | search_system.py:63 | the last `\b` inside a run, where the greedy match backs off to, or none |
| VectorSearch.QueryWordsFrom | search_system.py:63 | every word found is non-empty and made of `[а-яё-]` characters |
| VectorSearch.WordTermsMembers | search_system.py:66-70 | a query term is exactly a kept term of the parts of one of the words |
| VectorSearch.PartTermsMembers | search_system.py:67-70 | a part contributes exactly its processed term, when that term is longer than 2 and not a custom stop word |
| VectorSearch.QueryTermsShape | search_system.py:61-71 | every query term is longer than 2 characters and not a custom stop word; in token mode it is made of lower-case Cyrillic letters |
| VectorSearch.CollectWordTerms | search_system.py:64-71 | the loop over the words returns the specified terms, in query order |
| VectorSearch.VectorSearchEngine.TokenizeQuery | search_system.py:61-71 | `_tokenize_query` returns the specified terms |
| VectorSearch.VectorSearchEngine.VectorizeQuery | search_system.py:73-83 | `_vectorize_query` returns the specified sparse vector |
| VectorSearch.QueryVectorSlots | search_system.py:78-82 | every slot of the query vector belongs to an indexed query term |
| VectorSearch.QueryVectorAt | search_system.py:78-82 | each indexed query term has its slot, holding its share of the query times its IDF (0.0 when unknown) |
| VectorSearch.DocScore | search_system.py:97-109 | a document scores exactly when its norm is at least the floor, it shares a dimension with the query, and its cosine exceeds the score floor; the score is then that cosine |
| VectorSearch.ScoreAll | search_system.py:95-109 | the scoring loop returns the specified scores, in the store's order |
| VectorSearch.ScoresMembers | search_system.py:96-109 | a pair is in the scores exactly when the document is stored and earns that score |
| VectorSearch.ScoresInStoreOrder | search_system.py:95-109 | the scores list the documents in the order of `doc_vectors` |
| VectorSearch.ScoresAboveFloor | search_system.py:108-109 | every kept score is above the floor |
| VectorSearch.Take | search_system.py:111 | `s[:n]` is a prefix of `s` of length `min(n, len(s))`, counting a negative `n` from the end as Python does |
| VectorSearch.NamedFrom | search_system.py:112 | the results are exactly the ranked entries whose document has a page, in ranked order, each named by its page and keeping its score |
| VectorSearch.NamedDescending | search_system.py:112 | naming the ranked documents keeps the best-first order |
| VectorSearch.TopIsBest | search_system.py:111 | the sorted and cut scores are the best `top_n` of them: best first, drawn from the scores, as many as the slice keeps, nothing left out scoring above anything kept, and equal scores in their original order |
| VectorSearch.RankedResults | search_system.py:111-112 | the results name, in order, exactly those of the best `top_n` scores whose document has a page; so they are best first, at most `top_n`, each naming a scored document with its score |
| VectorSearch.RankingShape | search_system.py:95-112 | the results name, in order, those of the best `top_n` cosine scores whose document has a page (a document without one still takes its place in the cut); they are best first, at most `top_n`, every score above the floor, and each earned by a stored document |
| VectorSearch.SearchRanked | search_system.py:85-112 | `search`: no result without query terms or when the query norm is below the floor; otherwise the results name, in order, those of the best `top_n` cosine scores above the floor whose document has a page, best first, each earned by a stored document |
| VectorSearch.UnknownTermsNoResults | search_system.py:78-93 | a query none of whose terms is in the vocabulary has no results |
| VectorSearch.VectorSearchEngine.ScoreDocuments | search_system.py:95-109 | the engine's scoring loop over `doc_vectors` returns the specified scores |
| VectorSearch.VectorSearchEngine.Search | search_system.py:85-112 | `search` returns the specified results over the engine's tables |
| Order.SortByScoreStable | search_system.py:111 | the descending sort is stable: entries with equal scores keep their order |
| Order.SortedStrSet | boolean_search.py:60 | `sorted(set)` is strictly ascending and holds exactly the set's elements |
| Tokenizer.ChainMatch | tokenizer.py:81 | a match at a letter ends after it and within the text |
| Tokenizer.ChainMatchShape | tokenizer.py:81 | a match is letter runs joined by single hyphens, followed by `\b` |
| Tokenizer.TokenizeChains | tokenizer.py:80-81 | every word `tokenize` returns is a hyphen-joined run of lower-case Cyrillic letters |
| Tokenizer.TokenizeJoin | tokenizer.py:80-81 | hyphen-joined words separated by single spaces tokenize back to exactly those words |
| Tokenizer.ChainParts | tokenizer.py:87 | the `-`-separated parts of a word are non-empty runs of letters |
| Tokenizer.CollectTokens | tokenizer.py:85-94 | the two loops return the specified `valid_tokens` set |
| Tokenizer.ProcessTokens | tokenizer.py:84-95 | `process_tokens` returns the sorted token set |
| Tokenizer.TokenSetMembers | tokenizer.py:86-94 | a token is exactly a `-`-separated part of some word that passes the length, morphology and stop-word tests |
| Tokenizer.TokensShape | tokenizer.py:84-95 | the result is strictly ascending; every element has length at least 3, holds no `-`, passes the morphology test and is not a stop word (NLTK or custom) |
| Tokenizer.GetLemmas | tokenizer.py:98-103 | the loop returns the specified groups |
| Tokenizer.GroupsPartition | tokenizer.py:98-103 | each token is in the group of its normal form; each group holds only tokens with that normal form, and no group is empty |
| Tokenizer.RemoveFirstSorted | tokenizer.py:117-118 | removing an element from an ascending list keeps it ascending and drops exactly that element |
| Tokenizer.LineFormsShape | tokenizer.py:116-119 | a line's forms are the lemma first, then the group's other forms in ascending order |
| Tokenizer.LemmaLineFields | tokenizer.py:116-120 | a written line reads back (`split()`) as the lemma followed by the group's other forms, ascending, without the lemma |
| Tokenizer.LemmaLinesFor | tokenizer.py:115-120 | the writing loop returns one line per lemma of the given order |
| Tokenizer.LemmaFileLines | tokenizer.py:112-120 | `save_lemmas` writes the specified lines in sorted lemma order |
| Tokenizer.LemmaLinesAscending | tokenizer.py:115-120 | one line per lemma, each starting with a lemma of the groups, with the first words strictly ascending |
| Tokenizer.SaveFiles | tokenizer.py:141-148 | the files written for a page: its tokens joined by newlines, and its lemma lines |
| Tokenizer.FileOutcomeCases | tokenizer.py:124-135 | a page is processed exactly when its name ends with `.html`, its prefix before `_` is an integer, and that id was not seen; the result then carries that id |
| Tokenizer.SecondVisitSkipped | tokenizer.py:133-151 | once a page has been processed, any page with the same id is skipped |
| Tokenizer.Registry.ProcessFile | tokenizer.py:123-152 | `process_file` returns the specified outcome, and adds the id to `doc_ids` exactly when it processes the page |

## Left out

- **File I/O.** The model does not do `open`, `os.listdir`, `os.makedirs`,
  `json.load` or the `json.dump` of the documents section. Files are given as
  their lines, a directory as a map from file name to lines, and the documents
  section as the text `json.dump` writes. The pages directory of
  `calculation_TFIDF.py` is its listing together with a map `texts` from each
  readable page file to the text `extract_text` takes out of it; a listed file
  missing from `texts` is one whose `open` fails.
- **Directory listing order.** Where the code sorts a listing the model sorts
  too. The unsorted listings are parameters: lines 37 and 46 of
  `search_system.py`, and the page listing of `calculation_TFIDF.py` (line
  157), whose order decides which of two page files with the same prefix wins.
- **Floating point.** Arithmetic is exact `real`: rounding, `float()` parsing
  (`parseFloat`) and the `.6f` formatting of weight files are not modelled. A
  weight row carries the term, its TF and its IDF, and its weight column is
  TF × IDF.
- **Summation order.** Python sums floats in a fixed order. Over exact reals the
  order does not matter. `np.linalg.norm` and `math.log` are parameters.
- **Libraries given as parameters.** pymorphy (the normal form, and the
  score/part-of-speech test of `process_tokens`), NLTK's stop-word list, and
  BeautifulSoup's `extract_text` are parameters. The page text is the output of
  `extract_text`.
- **`html.unescape` in `clean_text`.** It is not modelled: the text is taken as
  already unescaped.
- **Character classes.**
  - `\w`, `\s` and case mapping are limited to ASCII and the Cyrillic letters
    а-я, А-Я, ё, Ё.
  - `\s` is the six ASCII whitespace characters.
  - Other Unicode letters, digits and spaces are not modelled, so `int()`
    reads only ASCII digits.
- **`load_inverted_index`** in `boolean_search.py`. It is JSON reading; the
  index and the universe are parameters.
- **`VectorSearchEngine._load_document_names`.** It is a directory listing;
  `documents` is a constructor parameter.
- **`save_tokens`.** It is modelled only as its text, `"\n".join(tokens)`
  (`Tokenizer.SaveFiles`).
- **The `main` functions** of `tokenizer.py` and `create_inverted_index.py`, and
  the `input()` loops of `boolean_search.py` and `search_system.py`. They are
  console drivers.
- **Logging and printed messages.** Where Python logs and skips, the model
  skips. Where Python raises, the model returns an error value.
- **`scraper.py`, `app.py` and the static web files.** They are the crawler and
  the web interface: network and UI code outside the pipeline.
- **VectorSearch.DocScore:** the cosine is exact real division over a norm given
  as a parameter. The bound of the cosine to [-1, 1] is not proved, because it
  needs the Cauchy–Schwarz property of the real `np.linalg.norm`, which the
  parameter does not carry.
