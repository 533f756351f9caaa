# rag-llm core, modelled in Dafny

rag-llm is a retrieval-augmented question-answering service. At start-up it reads its configuration, downloads a set of configured PDF documents and cleans their pages. It then indexes the pages in a vector store. A query is answered by a language model from the retrieved pages, and the answer comes back with citations. Around the language-model and web wiring sit three pieces of deterministic logic, and this project models and proves those three:

- **Page cleaning and filtering** (`DocumentService`, `text.dfy` and `documents.dfy`). This covers:
  - the five text stages (lower-casing, stripping non-letters, dropping stopwords, lemmatizing per token, collapsing whitespace);
  - the token-count meaningfulness test;
  - `replace_source`, which maps a downloaded file's path back to its configured link through the path's stem;
  - `clean_documents`, which walks the page list backwards, deletes pages whose raw text is not meaningful, and cleans the others in place.
- **The configuration validator** (`Parameters`, `configuration.dfy`). It lower-cases `STAGE` and decodes `DOCUMENT_LINKS` as JSON. When called, it reports missing values before it reports an unsupported stage, then returns the three settings.
- **The citation mapper** of `GeneratorService.run` (`generator.dfy`). It builds one `Reference` per context document, in order, with the page made 1-based, and returns them with the answer.

`wrappers.dfy` holds the `Option` and `Result` types.

Character model:
- The only letters are the ASCII letters.
- Whitespace is the set of characters Python's `str.isspace` accepts. That is also the set `str.split()`, `str.strip()` and the `\s` class of a `str` regular expression use.
- `str.split()` is the list of maximal whitespace-free runs. `' '.join` is modelled as written.

Inputs and opaque parts:
- The lemmatizer is an uninterpreted `string -> string` function, and the stopwords are a `set<string>`.
- The environment variables are an input value and `json.loads` is a function parameter.
- The values of the `Stages` enum are an abstract set of strings.
- The retrieval chain's response is an input value.

The page list that `clean_documents` mutates is the `seq` field of a `PageList` object. The `Parameters` validator is a class whose `Call` method updates `applicationStage` the way `__call__` does. `clean_documents` and the citation loop are loops proved against the pure specifications `CleanedDocuments` and `ReferenceOf`.

## Model

| member | source | states |
|---|---|---|
| Text.Filter | app/core/preprocessor/documents/services.py:64 | A list comprehension with a condition keeps only elements that satisfy it, in their original order (a subsequence), and keeps every satisfying element as often as it occurs. |
| Text.ToLowercase | app/core/preprocessor/documents/services.py:53-55 | The length is kept, no ASCII upper-case letter remains, each upper-case letter becomes its lower-case letter, and every other character is unchanged. |
| Text.RemoveSpecialCharacters | app/core/preprocessor/documents/services.py:57-59 | Only ASCII letters and whitespace remain, in their original order, and each letter or whitespace character occurs exactly as often as in the input: exactly the letters and whitespace are kept. |
| Text.Split | app/core/preprocessor/documents/services.py:63 | `text.split()` yields tokens that are non-empty and contain no whitespace. |
| Text.SplitBlank | app/core/preprocessor/documents/services.py:63 | A text has no tokens iff it consists of whitespace alone. |
| Text.Join | app/core/preprocessor/documents/services.py:64 | `' '.join` of whitespace-free words has no leading, trailing or repeated whitespace, and is empty iff there are no words. |
| Text.SplitJoin | app/core/preprocessor/documents/services.py:63-64 | Splitting the single-space join of whitespace-free words gives back exactly those words. |
| Text.SplitDropLeadingSpace | app/core/preprocessor/documents/services.py:73 | Leading whitespace does not change the tokens of a text. |
| Text.SplitAppendSpace | app/core/preprocessor/documents/services.py:73 | A trailing whitespace character does not change the tokens of a text. |
| Text.SplitDropTrailingSpace | app/core/preprocessor/documents/services.py:73 | Trailing whitespace does not change the tokens of a text. |
| Text.NonStopwordsAreWords | app/core/preprocessor/documents/services.py:64 | Dropping stopwords from a list of words leaves words. |
| Text.RemoveStopwords | app/core/preprocessor/documents/services.py:61-64 | The output of `remove_stopwords` has no leading, trailing or repeated whitespace. |
| Text.RemoveStopwordsTokens | app/core/preprocessor/documents/services.py:61-64 | The tokens of `remove_stopwords`' output are exactly the input's tokens that are not stopwords, in order. |
| Text.Lemmas | app/core/preprocessor/documents/services.py:69 | The lemma list has one entry per token. |
| Text.LemmatizeText | app/core/preprocessor/documents/services.py:66-69 | When every lemma is a word, the output of `lemmatize_text` has no leading, trailing or repeated whitespace. |
| Text.LemmatizeTextTokens | app/core/preprocessor/documents/services.py:66-69 | When the lemmatizer maps each token to a word, the tokens of `lemmatize_text`'s output are the lemmas of the input's tokens, in order. |
| Text.DropLeadingSpace | app/core/preprocessor/documents/services.py:73 | The result is a suffix of the input, starts with no whitespace, and everything dropped was whitespace. |
| Text.DropTrailingSpace | app/core/preprocessor/documents/services.py:73 | The result is a prefix of the input, ends with no whitespace, and everything dropped was whitespace. |
| Text.Strip | app/core/preprocessor/documents/services.py:73 | `strip()` leaves no whitespace at either end, never lengthens the text, and leaves a text without whitespace at its ends unchanged. |
| Text.StripTokens | app/core/preprocessor/documents/services.py:73 | `strip()` keeps the tokens. |
| Text.CollapseWhitespace | app/core/preprocessor/documents/services.py:73 | `re.sub(r'\s+', ' ', s)` is empty iff s is, starts with whitespace iff s does, and holds only single plain spaces as whitespace. |
| Text.CollapseWhitespaceLast | app/core/preprocessor/documents/services.py:73 | Collapsing whitespace runs keeps whether the text ends with whitespace. |
| Text.SplitCollapseWhitespace | app/core/preprocessor/documents/services.py:73 | Collapsing whitespace runs keeps the tokens. |
| Text.StripNormalizes | app/core/preprocessor/documents/services.py:73 | Stripping a single-spaced text leaves no leading or trailing whitespace and only single plain spaces. |
| Text.RemoveExtraWhitespace | app/core/preprocessor/documents/services.py:71-73 | The output has no leading or trailing whitespace and no whitespace other than single plain spaces. |
| Text.RemoveExtraWhitespaceTokens | app/core/preprocessor/documents/services.py:71-73 | `remove_extra_whitespace` keeps the tokens of its input. |
| Text.JoinSplitNormalized | app/core/preprocessor/documents/services.py:71-73 | A text without extra whitespace is the single-space join of its own tokens. |
| Text.RemoveExtraWhitespaceJoinsTokens | app/core/preprocessor/documents/services.py:71-73 | `remove_extra_whitespace(s)` is the single-space join of s's tokens. |
| Text.RemoveExtraWhitespaceFixesNormalized | app/core/preprocessor/documents/services.py:71-73 | A text without extra whitespace is left unchanged. |
| Text.RemoveExtraWhitespaceIdempotent | app/core/preprocessor/documents/services.py:71-73 | Applying `remove_extra_whitespace` twice gives the same result as applying it once. |
| Text.CleanText | app/core/preprocessor/documents/services.py:75-82 | The five stages composed in source order. The result has no leading, trailing or repeated whitespace. |
| Text.LettersOnlyTokens | app/core/preprocessor/documents/services.py:77-78 | After lower-casing and stripping special characters, every token is a non-empty run of lower-case ASCII letters. |
| Text.LowerLettersSplit | app/core/preprocessor/documents/services.py:63 | A text of lower-case letters and whitespace splits into lower-case words. |
| Text.CleanTextTokens | app/core/preprocessor/documents/services.py:75-82 | When the lemmatizer maps lower-case words to words, the tokens of `clean_text` are the lemmas of the lowered, letters-only, non-stopword tokens, in order, and the output is their single-space join. |
| Text.IsMeaningful | app/core/preprocessor/documents/services.py:88-94 | A text of whitespace alone is meaningful only when the threshold is zero or less. |
| Text.MeaningfulCountsWords | app/core/preprocessor/documents/services.py:88-94 | The join of n words is meaningful iff n reaches the threshold. |
| Text.MeaningfulIgnoresSpacing | app/core/preprocessor/documents/services.py:88-94 | Removing extra whitespace never changes whether a text is meaningful. |
| Documents.LastIndexOf | app/core/preprocessor/documents/services.py:85 | `rfind`: -1 or an index holding the character, with no occurrence after it. |
| Documents.PathName | app/core/preprocessor/documents/services.py:85 | The name of a POSIX path contains no '/' and is never ".". |
| Documents.PathNameOfName | app/core/preprocessor/documents/services.py:85 | A name without '/' that is neither empty nor "." is its own path name. |
| Documents.PathNameOfDirEntry | app/core/preprocessor/documents/services.py:85 | The name of `dir/n` is n, whatever the directory. |
| Documents.PathNameTrailing | app/core/preprocessor/documents/services.py:85 | A trailing '/' or a trailing "." component does not change the name. |
| Documents.Stem | app/core/preprocessor/documents/services.py:85 | The stem is a prefix of the name. When it differs from the name, it stops at the last '.', which is neither the first nor the last character. When it equals the name, the name ends with '.' or has no '.' after its first character. |
| Documents.StemOfSuffixed | app/core/preprocessor/documents/services.py:85 | The stem of `n.ext` is n, for a non-empty n and a non-empty suffix without '.'. |
| Documents.ReplaceSource | app/core/preprocessor/documents/services.py:84-86 | The lookup succeeds iff the stem of the path's name is configured, and yields that stem's link; otherwise the error is KeyError of that stem. |
| Documents.ReplaceSourceRoundTrip | app/core/preprocessor/documents/services.py:84-86 | For a non-empty name without '/', the download path `app/data/<name>.pdf` maps back to `document_links[name]`, or to KeyError(name) when the name is not configured. |
| Documents.SourcePath | app/core/preprocessor/documents/services.py:104 | `metadata["source"]` is usable as a path iff it is present and a string; the result is that string. |
| Documents.RewrittenSource | app/core/preprocessor/documents/services.py:104 | A rewritten source is one of the configured links. |
| Documents.CleanPage | app/core/preprocessor/documents/services.py:103-106 | A cleaned page holds text with no leading, trailing or repeated whitespace, and a configured link under "source". |
| Documents.WithSource | app/core/preprocessor/documents/services.py:105-106 | The stored page has the new text and the new "source" entry. The metadata keeps its key set and every other entry. |
| Documents.CleanPageSucceeds | app/core/preprocessor/documents/services.py:103-106 | A meaningful page cleans iff its source is a string path whose stem is a configured name. |
| Documents.CleanPageContent | app/core/preprocessor/documents/services.py:103-106 | A cleaned page holds `clean_text` of its old text, and under "source" the link configured for the old path's stem. |
| Documents.CleanPageKeepsMetadata | app/core/preprocessor/documents/services.py:103-106 | Cleaning keeps the metadata keys and every entry other than "source". |
| Documents.Walk | app/core/preprocessor/documents/services.py:98-106 | Walking a list from the back yields, on success, no more elements than the list has. |
| Documents.WalkSurvivors | app/core/preprocessor/documents/services.py:98-106 | The walk keeps exactly the elements the test accepts, in order, each mapped by the step, and succeeds iff the step succeeds on all of them. |
| Documents.WalkFailsAtLast | app/core/preprocessor/documents/services.py:98-106 | A failing walk fails with the error of the last accepted element on which the step fails. |
| Documents.WalkErrPropagates | app/core/preprocessor/documents/services.py:98-106 | Once the walk of a suffix fails, the walk of the whole list fails with the same error. |
| Documents.Survivors | app/core/preprocessor/documents/services.py:99-101 | The surviving pages are meaningful and in their original order, and every meaningful page is kept as often as it occurs. |
| Documents.CleanedDocuments | app/core/preprocessor/documents/services.py:96-108 | On success `clean_documents` leaves no more pages than it was given. |
| Documents.CleanedDocumentsSurvivors | app/core/preprocessor/documents/services.py:96-108 | `clean_documents` succeeds iff every page with meaningful raw text cleans. It then yields exactly those pages, in their original order, each cleaned by CleanPage. |
| Documents.CleanedDocumentsFailsAtLast | app/core/preprocessor/documents/services.py:98-104 | On failure the error is that of the last meaningful page that cannot be cleaned, because the backward walk meets that page first. |
| Documents.ShortPagesDropped | app/core/preprocessor/documents/services.py:88-94 | With the default threshold of 25 (lines 11 and 16), a page with fewer than 25 tokens is never among the survivors. |
| Documents.PageList.constructor | app/core/preprocessor/documents/services.py:96 | The page list holds the given pages. |
| Documents.CleanDocumentAt | app/core/preprocessor/documents/services.py:99-106 | One iteration at index i. It keeps the invariant "untouched prefix, then the cleaned result of the suffix"; when it raises, it leaves the list half-processed. |
| Documents.CleanDocuments | app/core/preprocessor/documents/services.py:96-108 | On success the list holds CleanedDocuments of the old list. On failure the error is that of CleanedDocuments, and the list is the untouched prefix up to the failing page followed by the processed suffix. |
| Configuration.Validate | app/configurations/builder.py:61-69 | Validation succeeds iff the key, the links and the stage are non-None and the stage is available; the resulting stage is then an available one. Every failure is one of the two EnvironmentErrors. |
| Configuration.LoweredStage | app/configurations/builder.py:30-33 | The stored stage is None iff STAGE is unset; otherwise it is the lower-cased STAGE: the same length, with no upper-case letter. |
| Configuration.Configure | app/configurations/builder.py:29-69 | A successful configuration has an available stage, non-null links and the environment's key. The constructor's TypeError happens iff DOCUMENT_LINKS is unset, and the decode error iff it is set but malformed. |
| Configuration.ConfigureSucceeds | app/configurations/builder.py:29-69 | Construction and call succeed iff DOCUMENT_LINKS is set, decodes and is not null, the key is set, and the lower-cased stage is available. The record is then (lower-cased stage, key, decoded links). |
| Configuration.UnsetLinksFailInConstructor | app/configurations/builder.py:34 | An unset DOCUMENT_LINKS raises TypeError in the constructor, whatever the other variables hold. |
| Configuration.MissingReportedBeforeUnsupported | app/configurations/builder.py:61-63 | Once the links decode, the missing-values error is raised iff the stage, the key or the links are None. A missing stage is never reported as unsupported. |
| Configuration.UnsupportedStageReported | app/configurations/builder.py:49-59 | A complete configuration whose lower-cased stage is not available raises the unsupported-stage error with that stage. |
| Configuration.StageCaseInsensitive | app/configurations/builder.py:33 | Two STAGE values that agree after lower-casing configure alike. |
| Configuration.Parameters.constructor | app/configurations/builder.py:29-35 | The object holds the enum's values and the three readings it is given. |
| Configuration.Parameters.CheckEnvironmentVariablesNotNone | app/configurations/builder.py:37-47 | Raises iff the key, the links or the stage is None, and the error is the missing-values one. |
| Configuration.Parameters.IdentifyStageInEnvironment | app/configurations/builder.py:49-59 | Succeeds iff the stored stage is one of the enum's values, which it keeps. Otherwise it raises with the stored stage. |
| Configuration.Parameters.Call | app/configurations/builder.py:61-69 | Returns Validate of the fields as they were before the call. |
| Configuration.NewParameters | app/configurations/builder.py:29-35 | Construction fails iff DOCUMENT_LINKS is unset (TypeError) or malformed (JSON decode error). On success the new object holds the lower-cased stage, the decoded links and the key. |
| Configuration.LoadSettings | app/configurations/builder.py:29-69 | Constructing and then calling Parameters gives Configure of the environment. |
| Generator.ReferenceOf | app/apps/generator/services.py:17-22 | A document yields a reference iff its source is a string and its page an integer. The reference's link is the source, its text the page content and its page the 0-based page plus one. Errors come in evaluation order: missing source, missing page, non-integer page, non-string link. |
| Generator.Run | app/apps/generator/services.py:14-24 | Succeeds iff every context document yields a reference. The answer is copied, and there is exactly one reference per document, in order. Otherwise the error is that of the first failing document. |
| Generator.ReferencePagesOneBased | app/apps/generator/services.py:20-21 | Each reference's page is its document's page index plus one, so page 0 is cited as page 1. |
| Generator.DuplicatesKept | app/apps/generator/services.py:14-22 | The mapping is deterministic: equal context documents give equal references, so duplicates are cited twice rather than merged. |

## Error behaviour of the code

- **Stem not configured.** `replace_source` does not report an unconfigured stem separately: the dictionary lookup raises KeyError in the middle of `clean_documents`, which leaves the list half-processed. `Documents.CleanDocuments` states that state.
- **Configuration errors.** Building and calling `Parameters` has four distinct failures:
  - a TypeError when `json.loads` is given an unset DOCUMENT_LINKS;
  - a JSON decode error for malformed links;
  - an EnvironmentError for missing values;
  - an EnvironmentError for an unsupported stage.
- **Failed downloads.** `_download_documents` appends None to the path list when a download fails; nothing excludes that document. Downloads are not modelled (see below).

## Left out

- Document acquisition is not modelled (`_download_pdf`, `_download_documents`, `load_documents`, and the downloads and corpus loading in `DocumentService.__init__`). It is network, filesystem and PDF-parsing I/O. The constructor's default threshold of 25 is `Documents.DefaultMinWordCount`, used by `Documents.ShortPagesDropped`.
- The `RAG` class, its chunking, the vector store and the nltk downloads are not modelled. They are library wiring whose code is not part of this model.
- The WordNet lemmatizer and the NLTK stopword corpus are parameters. Idempotence of `clean_text` is not claimed, because it depends on the lemmatizer.
- Text.ToLowercase: does not model the full Unicode case mapping of `str.lower`; only ASCII letters change case. `Configuration.LoweredStage` inherits this.
- Documents.PathName: models POSIX path parsing only (the Windows flavour of `pathlib.Path` is left out). Documents.Stem follows the suffix rule of Python up to 3.13.
- Pages are values. The identity of Document objects is left out: other references to the same Document objects do not see the in-place updates.
- Metadata values are strings or integers only. Other Python values (floats, booleans, None) are left out.
- Generator.ReferenceOf: assumes that the Reference schema rejects a non-string link and accepts the integer page. The schema's base class configuration is not part of this model.
- A response without "answer" or "context" is not modelled. The retrieval chain always provides both.
- `rag_chain.invoke`, the async entry point and logging are not modelled. The chain's response is an input.
- `getenv` and `json.loads` are left out as calls. The environment is an input and decoding is a parameter.
- The messages of the raised errors are not modelled.
- Configuration.Parameters.IdentifyStageInEnvironment: does not model the enum member held in `application_stage` between its two assignments. Only the final value, which is the same string, is kept.
- The web layer (`app/api.py`, the controllers, the module-level singletons) is not part of this model.
