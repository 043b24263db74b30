# UATokenizer token pipeline in Dafny

This project models the token-processing pipeline of `UATokenizer.main` and the
lexicon export `writeTokensToFiles`. The tokenizer walks the files of an input
directory in order and numbers them from 1. It passes every scanner token
through a classifier:

- Tokens of a kind outside LETTER, WORD, EMAIL, DOMAIN, PHONE and PRICE are
  dropped.
- Accepted images are cut to 24 characters.
- WORD and LETTER images are lower-cased. Those found in the dictionary are
  stored, with their file number, in a word buffer of 1000000 slots.
- Every other accepted token updates the run-wide lexicon (string to
  frequency and kind) with its own kind.

After each token the buffer is flushed when it holds 900000 words, or when the
next token is the EOF of the last file. A flush works in these steps:

- The buffered words, each followed by a space, form the text the lemmatizer
  reads.
- Lemma i is paired with buffer slot i.
- Every paired lemma is written to the context output.
- It is also written to the temp output of its word's file. That output is
  reopened, and so emptied, whenever the file number changes. The first
  paired lemma of every flush always opens one.
- Every paired lemma counts once in the lexicon with kind WORD.
- Finally the buffer is replaced by an empty one.

The export walks the lexicon keys. It writes a `key,frequency` row for every
WORD key, and writes each key of an exported kind to that kind's file as many
times as its frequency.

Modules, one per file:

- `Tokens` (`tokens.dfy`): kinds, truncation, ASCII lower-casing and the
  classification rule.
- `Lexicons` (`lexicon.dfy`): the lexicon and its read-then-put update.
- `Batching` (`batching.dfy`): the word buffer, the blob, the pairing of
  labels with buffer slots, the routing of lemmas, and the flush as a
  function.
- `Pipeline` (`pipeline.dfy`): the token loop and the file loop as
  functions, and the properties of whole runs.
- `Driver` (`driver.dfy`): class `TokenPipeline`, the imperative
  implementation. It has an array of `Option<BufferedWord>` slots, a counter,
  and lexicon, context and temp fields updated in place. Its while loops over
  files, tokens, buffer slots and labels are proved to compute the functions of
  `Batching` and `Pipeline`. `Tokenize` is the whole main loop.
- `Export` (`export.dfy`): `writeTokensToFiles` over a lexicon snapshot.

The main modelling choices:

- The scanner of each file is a finite token sequence; its end stands for EOF.
- The lemmatizer is a parameter `lemmatize: string -> seq<string>`, from the
  blob to the lemma labels. Its output may have any length.
- The dictionary is a parameter `set<string>`.
- An output file is the sequence of its lines. The temp outputs are a map
  from file number to lines.

Two points of the lexicon and the dictionary as the code has them:

- A lexicon update replaces the whole entry, so the kind of the latest update
  is kept, not the first (`Lexicons.Put`, `Lexicons.LastKindWins`).
- The dictionary test is an exact match on the truncated, lower-cased word,
  so a dictionary entry with an upper-case letter can never match.

Behaviours of the code that the model keeps and proves:

- The label loop reads buffer slot i for every label index i. A lemmatizer
  that returns more than 1000000 labels therefore reads past the end of the
  array, an uncaught exception that ends the run (`Run.IndexOutOfBounds`). A
  smaller surplus of labels is skipped. Buffered words beyond the last label
  are dropped.
- The end-of-corpus flush is tested inside the token loop. For every corpus
  whose last file has no tokens, the run is that of the earlier files with the
  end-of-corpus flush never requested, so the words they leave buffered are
  never written anywhere (`Pipeline.EmptyLastFileNoFlush`; a concrete instance
  is `Pipeline.EmptyLastFileLosesWords`).
- A file whose words fall into two flushes keeps only the later batch in its
  temp output, because reopening the output empties it
  (`Batching.FlushRouting`).

## Model

| member | source | states |
|---|---|---|
| Tokens.Truncate | UATokenizer.java:141-142 | the kept image is a prefix of the original, of length min(length, 24), and an image of at most 24 characters is unchanged |
| Tokens.Lowercase | UATokenizer.java:148 | same length, every upper-case ASCII letter becomes the lower-case letter at the same place in the alphabet, no upper-case letter is left, and every other character is unchanged |
| Tokens.Classify | UATokenizer.java:138-166 | a token is rejected exactly when its kind is not one of the six accepted kinds; WORD and LETTER are buffered exactly when their lower-cased, truncated image is in the dictionary; every other accepted kind is counted with its own kind under its truncated image |
| Lexicons.Put | UATokenizer.java:160-165 | an absent key enters with frequency 1, a present key gets its old frequency plus 1, the entry carries the kind of this update, and no other key changes |
| Lexicons.PutAllEffect | UATokenizer.java:225-230 | after a run of WORD updates a key is present exactly when it was before or was updated; its frequency grew by its number of updates; updated keys have the updates' kind; other entries are unchanged |
| Lexicons.LastKindWins | UATokenizer.java:160-165 | two updates of one key under different kinds leave the frequency raised by two and the second kind |
| Batching.BlobSnoc | UATokenizer.java:182-185 | appending a word to the buffer appends the word and one space to the blob |
| Batching.BlobFields | UATokenizer.java:181-185 | when no buffered word holds a space, splitting the blob at its spaces gives back the buffered words in order |
| Batching.PairsAlign | UATokenizer.java:199-209 | the paired lemmas are exactly the labels up to min(buffer size, label count), each paired with the file number of the buffer slot of the same index, and a buffer in file order gives pairs in file order |
| Batching.RouteAllWrites | UATokenizer.java:225-233 | the label loop appends the paired lemmas to the context output in order and makes one WORD lexicon update per lemma |
| Batching.RouteTemp | UATokenizer.java:208-236 | one iteration: a changed file number reopens that file's temp output so that it holds only the new lemma; otherwise the lemma is appended |
| Batching.RoutedToAbsent | UATokenizer.java:199-239 | a file with no pair receives no lemma |
| Batching.SortedMentions | UATokenizer.java:208-212 | in pairs sorted by file number no pair's file number exceeds the last one |
| Batching.RouteAllTemp | UATokenizer.java:195-242 | for pairs sorted by file number and a loop started at file 0, each file with pairs ends up holding exactly its own lemmas in order; every other temp output is unchanged |
| Batching.FlushEffect | UATokenizer.java:181-281 | a flush fails exactly when there are more than 1000000 labels; otherwise the context output gets the first min(n, labels) lemmas in order, the lexicon one WORD update for each, and the buffer is emptied |
| Batching.FlushRouting | UATokenizer.java:195-242 | over a buffer in file order, a flush replaces the temp output of every file with a paired lemma by exactly that file's paired lemmas, so an earlier batch is lost; other temp outputs stay as they were |
| Pipeline.Step | UATokenizer.java:138-166 | an unaccepted token changes nothing; a WORD or LETTER token appends its truncated-then-lower-cased image with the current file number when the dictionary has it and leaves the lexicon alone; any other accepted token updates the lexicon with its own kind and leaves the buffer alone |
| Pipeline.AfterTokenWellFormed | UATokenizer.java:154-171 | after a token the buffer is below 900000 words again, still in file order, with only dictionary words of files up to the current one |
| Pipeline.RunFileWellFormed | UATokenizer.java:132-291 | the token loop of one file keeps that invariant |
| Pipeline.RunFilesWellFormed | UATokenizer.java:120-300 | the file loop keeps it, with the bound on file numbers raised to the number of files |
| Pipeline.BufferBound | UATokenizer.java:154-171 | after a completed run the buffer holds fewer than 900000 words, in file order, all from the dictionary |
| Pipeline.RunFileTerminal | UATokenizer.java:171-287 | in the last file, the last token triggers a flush that leaves the buffer empty |
| Pipeline.RunFilesTerminal | UATokenizer.java:120-287 | when the last file has tokens, the file loop ends with an empty buffer |
| Pipeline.TerminalFlush | UATokenizer.java:171 | when the last file has at least one token, a completed run leaves no buffered word |
| Pipeline.RunFilesEmptyLast | UATokenizer.java:120-171 | from any file on, the file loop over a corpus with an empty last file equals the file loop over the corpus without it in which no file is treated as the last |
| Pipeline.EmptyLastFileNoFlush | UATokenizer.java:120-171 | for every corpus whose last file has no tokens, the run equals the run of the earlier files with the end-of-corpus flush never requested |
| Pipeline.EmptyLastFileLosesWords | UATokenizer.java:120-171 | a dictionary word in file 1 followed by an empty file 2 stays in the buffer, and the context, temp outputs and lexicon all end up empty |
| Pipeline.EmptyCorpus | UATokenizer.java:120-132 | with no files every output stays empty |
| Pipeline.AfterTokenAccounted | UATokenizer.java:160-230 | one token keeps every frequency equal to its non-word token count plus its context lines, and keeps lexicon membership equal to occurring in either |
| Pipeline.StepAccounted | UATokenizer.java:138-166 | the classifier step keeps the accounting, with the token's non-word key, if any, added |
| Pipeline.FlushAccounted | UATokenizer.java:199-233 | a completed flush keeps the accounting: each paired lemma is one more context line and one more count |
| Pipeline.RunFileAccounted | UATokenizer.java:132-291 | the token loop of one file keeps that accounting, with the file's non-word keys added |
| Pipeline.RunFilesAccounted | UATokenizer.java:120-300 | the file loop keeps it, with the keys of the remaining files added |
| Pipeline.FrequencyAccounting | UATokenizer.java:160-233 | after a completed run the frequency of every string is its number of non-word tokens plus its number of context lines, and the lexicon holds exactly the strings occurring in either |
| Pipeline.StepOrdered | UATokenizer.java:138-156 | the classifier step appends the token's dictionary word, if any, to the buffer, so the context output followed by the buffered lemmas extends by that word's lemma |
| Pipeline.FlushOrdered | UATokenizer.java:181-242 | with a one-lemma-per-word lemmatizer a flush of at most 900000 dictionary words never fails, empties the buffer, and appends the lemmas of all buffered words to the context output in order |
| Pipeline.AfterTokenOrdered | UATokenizer.java:138-242 | with a one-lemma-per-word lemmatizer a token never fails, and the context output followed by the lemmas of the buffered words stays the lemma sequence of the words seen so far |
| Pipeline.RunFileOrdered | UATokenizer.java:132-291 | the token loop of one file keeps that order, with the file's words appended |
| Pipeline.RunFilesOrdered | UATokenizer.java:120-300 | the file loop keeps it across files and flush boundaries |
| Pipeline.ContextOrder | UATokenizer.java:181-233 | with such a lemmatizer a run never fails, and the context output followed by the lemmas still buffered is the lemma sequence of all dictionary words of the corpus in order |
| Pipeline.CorpusLemmas | UATokenizer.java:114-300 | when in addition the last file has tokens, the context output is exactly that lemma sequence, and every frequency is the string's non-word token count plus the number of corpus words lemmatized to it |
| Driver.TokenPipeline.constructor | UATokenizer.java:119 | a fresh buffer array with every slot empty, and an empty lexicon and empty outputs |
| Driver.TokenPipeline.AddToLexicon | UATokenizer.java:160-165 | the read-then-put update computes Lexicons.Put |
| Driver.TokenPipeline.Accept | UATokenizer.java:138-166 | the in-place handling of a token, including the array store at the next free slot, yields Pipeline.Step of the previous state and keeps the slot invariant |
| Driver.TokenPipeline.BuildBlob | UATokenizer.java:181-185 | the loop up to the first empty slot builds exactly the blob of the buffered words |
| Driver.TokenPipeline.RouteLabels | UATokenizer.java:195-239 | the label loop fails exactly when there are more than 1000000 labels, and otherwise leaves the lexicon, context output and temp outputs of Batching.RouteAll over the pairs of labels and buffer slots |
| Driver.TokenPipeline.RouteLabel | UATokenizer.java:201-236 | one iteration of the label loop, with its changed-file flag and reopen, performs one routing step |
| Driver.TokenPipeline.FlushBuffer | UATokenizer.java:181-281 | it fails exactly when Batching.Flush fails; otherwise the new state is that of Batching.Flush and a fresh empty buffer array is in place |
| Driver.TokenPipeline.HandleToken | UATokenizer.java:134-281 | one iteration of the token loop, the token handling followed by the flush check, fails exactly when Pipeline.AfterToken does and otherwise reaches its state |
| Driver.TokenPipeline.ScanFile | UATokenizer.java:131-291 | the token loop of one file, with its break after a flush before EOF, fails exactly when Pipeline.RunFile does and otherwise reaches its state |
| Driver.Tokenize | UATokenizer.java:114-300 | the whole run fails exactly when Pipeline.Process does, and otherwise returns the lexicon, context output and temp outputs of Pipeline.Process |
| Export.WriteLine | UATokenizer.java:353-371 | one pass of the switch appends the image to the file of its kind, if that kind has one, and to no other file |
| Export.ExpectedStep | UATokenizer.java:342-373 | writing one more key adds exactly that key's rows and lines to what is expected |
| Export.ExpectedAll | UATokenizer.java:342-373 | once every key has been written, what is expected is the rows and lines of the whole lexicon |
| Export.WriteCopies | UATokenizer.java:352-372 | the inner loop adds the image exactly count times to the file of its kind and nothing elsewhere |
| Export.WriteEntry | UATokenizer.java:345-372 | one key adds its frequency row if it is a WORD key, and its frequency count of lines to the file of its kind |
| Export.WriteTokensToFiles | UATokenizer.java:316-389 | for any key order, frequency.txt has exactly one row per WORD key, carrying its frequency; each exported kind's file holds every key of that kind exactly frequency times and nothing else |

## Left out

- The lexical scanner (`PS1Tokenizer`) and its grammar: each file's tokens are a given sequence, and the lookahead of one token is the next element of that sequence.
- Stanford CoreNLP: the lemmatizer is an uninterpreted function from the blob to a label sequence of any length. The order properties are proved for lemmatizers that return one lemma per space-separated word (`Pipeline.PerWord`) and for dictionaries whose entries hold no space (`Pipeline.SpaceFreeDictionary`), so that the blob splits back into the buffered words.
- Argument parsing, the trailing '/' fix, the directory listing and its order: the files arrive as a sequence in the order they are processed.
- Dictionary loading and its `trim`: the dictionary is a given set of strings.
- All stream I/O: creating the temp directory, opening and closing writers, the file names (`temp%010d.txt`), the line terminators, and the `catch` of `IOException`. Writing a line is appending to a sequence; opening a temp file is resetting its sequence to empty.
- Tokens.Truncate: Java's `length()` and `substring(0, 24)` count UTF-16 code units, while a Dafny `char` is a Unicode scalar value, so an image with characters outside the Basic Multilingual Plane is cut at a different place, and the split of a surrogate pair that Java can produce is not modelled.
- Tokens.Lowercase: does not model Java's locale- and Unicode-aware `toLowerCase`, only ASCII letters are mapped, because the Unicode case tables are outside the model.
- The `0.9f` threshold is the integer 900000: the single-precision product `1000000 * 0.9f` is exactly 900000.0, so no floating point is modelled.
- The state that a failing flush leaves half-written: the exception ends the program, so the model keeps only that the run failed.
- The commented-out batching code inside the flush, which never runs.
- Console logging.
- `HashMap` iteration order in the export: the key order is left unspecified (`:|`), and the export is specified by counts per key, not by line order.
- Export.WriteTokensToFiles: a frequency row is the pair of key and frequency, without the formatting of the number as decimal text.
- `writeTokensToFiles` is not called from `main`, so the export is a separate operation over a lexicon snapshot.
- Lexicons.Put: does not model the wrap-around of Java's 32-bit `int` frequency past 2^31 - 1; frequencies are unbounded naturals.
