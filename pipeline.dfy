/** The token loop of UATokenizer.main as a function of its inputs: the token
    sequences of the input files in listing order, the dictionary, and the
    lemmatizer (a function from the blob to its lemma labels). The imperative
    driver in module Driver is proved to compute exactly this. */
module Pipeline {
  import opened Tokens
  import opened Lexicons
  import opened Batching

  /** The state before the first file: empty buffer, lexicon and outputs. */
  const Initial: PState := PState([], map[], [], map[])

  /** One token through the classifier: a word-like dictionary word is
      appended to the buffer with its file number, any other accepted token
      updates the lexicon with its own kind, and nothing else changes. */
  function Step(st: PState, t: Token, fileNum: FileNum, dictionary: set<string>): (r: PState)
    ensures !IsAccepted(t.kind) ==> r == st
    ensures IsWordLike(t.kind) ==>
      var w := Lowercase(Truncate(t.image));
      r == st.(buffer := if w in dictionary then st.buffer + [BufferedWord(w, fileNum)] else st.buffer)
    ensures IsAccepted(t.kind) && !IsWordLike(t.kind) ==>
      r == st.(lexicon := Put(st.lexicon, Truncate(t.image), t.kind))
  {
    match Classify(t, dictionary)
    case Buffer(w) => st.(buffer := st.buffer + [BufferedWord(w, fileNum)])
    case Count(key, kind) => st.(lexicon := Put(st.lexicon, key, kind))
    case _ => st
  }

  /** One iteration of the token loop: the classifier step, then the flush
      check, which fires on a buffer at the threshold or when the next token is
      the EOF of the last file. */
  function AfterToken(st: PState, t: Token, fileNum: FileNum, endOfCorpus: bool,
                      dictionary: set<string>, lemmatize: string -> seq<string>): Run
  {
    var s := Step(st, t, fileNum, dictionary);
    if |s.buffer| >= FLUSH_THRESHOLD || endOfCorpus then Flush(s, lemmatize(Blob(Texts(s.buffer))))
    else Completed(s)
  }

  /** The token loop over one file, from token j on. */
  function RunFile(st: PState, tokens: seq<Token>, j: nat, fileNum: FileNum, lastFile: bool,
                   dictionary: set<string>, lemmatize: string -> seq<string>): Run
    decreases |tokens| - j
  {
    if j >= |tokens| then Completed(st)
    else
      match AfterToken(st, tokens[j], fileNum, lastFile && j + 1 == |tokens|, dictionary, lemmatize)
      case IndexOutOfBounds => IndexOutOfBounds
      case Completed(s) => RunFile(s, tokens, j + 1, fileNum, lastFile, dictionary, lemmatize)
  }

  /** How one token moves the file loop on. */
  lemma RunFileStep(st: PState, tokens: seq<Token>, j: nat, fileNum: FileNum, lastFile: bool,
                    dictionary: set<string>, lemmatize: string -> seq<string>)
    requires j < |tokens|
    ensures var a := AfterToken(st, tokens[j], fileNum, lastFile && j + 1 == |tokens|, dictionary, lemmatize);
      var r := RunFile(st, tokens, j, fileNum, lastFile, dictionary, lemmatize);
      && (a.IndexOutOfBounds? ==> r.IndexOutOfBounds?)
      && (a.Completed? ==> r == RunFile(a.state, tokens, j + 1, fileNum, lastFile, dictionary, lemmatize))
  {
  }

  /** The file loop, from file k (whose number is k + 1) on. */
  function RunFiles(st: PState, files: seq<seq<Token>>, k: nat,
                    dictionary: set<string>, lemmatize: string -> seq<string>): Run
    decreases |files| - k
  {
    if k >= |files| then Completed(st)
    else
      match RunFile(st, files[k], 0, k + 1, k + 1 == |files|, dictionary, lemmatize)
      case IndexOutOfBounds => IndexOutOfBounds
      case Completed(s) => RunFiles(s, files, k + 1, dictionary, lemmatize)
  }

  /** The whole run over the corpus. */
  function Process(files: seq<seq<Token>>, dictionary: set<string>, lemmatize: string -> seq<string>): Run {
    RunFiles(Initial, files, 0, dictionary, lemmatize)
  }

  // ---------------------------------------------------------------------------
  // Buffer bound and file order of the buffer

  /** What holds between tokens: the buffer is below the flush threshold, its
      file numbers never decrease and never pass the current file, and every
      buffered word is a dictionary word. */
  ghost predicate WellFormed(st: PState, fileNum: int, dictionary: set<string>) {
    && |st.buffer| < FLUSH_THRESHOLD
    && SortedBuffer(st.buffer)
    && (forall i :: 0 <= i < |st.buffer| ==> st.buffer[i].fileNum <= fileNum && st.buffer[i].text in dictionary)
  }

  lemma AfterTokenWellFormed(st: PState, t: Token, fileNum: FileNum, endOfCorpus: bool,
                             dictionary: set<string>, lemmatize: string -> seq<string>)
    requires WellFormed(st, fileNum, dictionary)
    ensures var r := AfterToken(st, t, fileNum, endOfCorpus, dictionary, lemmatize);
      r.Completed? ==> WellFormed(r.state, fileNum, dictionary)
  {
    var s := Step(st, t, fileNum, dictionary);
    if |s.buffer| >= FLUSH_THRESHOLD || endOfCorpus {
      FlushEffect(s, lemmatize(Blob(Texts(s.buffer))));
    }
  }

  lemma {:induction false} RunFileWellFormed(st: PState, tokens: seq<Token>, j: nat, fileNum: FileNum, lastFile: bool,
                                             dictionary: set<string>, lemmatize: string -> seq<string>)
    requires WellFormed(st, fileNum, dictionary)
    ensures var r := RunFile(st, tokens, j, fileNum, lastFile, dictionary, lemmatize);
      r.Completed? ==> WellFormed(r.state, fileNum, dictionary)
    decreases |tokens| - j
  {
    if j < |tokens| {
      var eoc := lastFile && j + 1 == |tokens|;
      AfterTokenWellFormed(st, tokens[j], fileNum, eoc, dictionary, lemmatize);
      var a := AfterToken(st, tokens[j], fileNum, eoc, dictionary, lemmatize);
      if a.Completed? {
        RunFileWellFormed(a.state, tokens, j + 1, fileNum, lastFile, dictionary, lemmatize);
      }
    }
  }

  lemma {:induction false} RunFilesWellFormed(st: PState, files: seq<seq<Token>>, k: nat,
                                              dictionary: set<string>, lemmatize: string -> seq<string>)
    requires k <= |files|
    requires WellFormed(st, k, dictionary)
    ensures var r := RunFiles(st, files, k, dictionary, lemmatize);
      r.Completed? ==> WellFormed(r.state, |files|, dictionary)
    decreases |files| - k
  {
    if k < |files| {
      RunFileWellFormed(st, files[k], 0, k + 1, k + 1 == |files|, dictionary, lemmatize);
      var a := RunFile(st, files[k], 0, k + 1, k + 1 == |files|, dictionary, lemmatize);
      if a.Completed? {
        RunFilesWellFormed(a.state, files, k + 1, dictionary, lemmatize);
      }
    }
  }

  /** Between tokens, and at the end of a run, the buffer holds fewer than
      FLUSH_THRESHOLD words, in file order, all from the dictionary. */
  lemma BufferBound(files: seq<seq<Token>>, dictionary: set<string>, lemmatize: string -> seq<string>)
    ensures var r := Process(files, dictionary, lemmatize);
      r.Completed? ==> WellFormed(r.state, |files|, dictionary)
  {
    RunFilesWellFormed(Initial, files, 0, dictionary, lemmatize);
  }

  // ---------------------------------------------------------------------------
  // Terminal flush

  lemma {:induction false} RunFileTerminal(st: PState, tokens: seq<Token>, j: nat, fileNum: FileNum,
                                           dictionary: set<string>, lemmatize: string -> seq<string>)
    requires j < |tokens|
    ensures var r := RunFile(st, tokens, j, fileNum, true, dictionary, lemmatize);
      r.Completed? ==> r.state.buffer == []
    decreases |tokens| - j
  {
    var a := AfterToken(st, tokens[j], fileNum, j + 1 == |tokens|, dictionary, lemmatize);
    if a.Completed? {
      if j + 1 == |tokens| {
        var s := Step(st, tokens[j], fileNum, dictionary);
        FlushEffect(s, lemmatize(Blob(Texts(s.buffer))));
      } else {
        RunFileTerminal(a.state, tokens, j + 1, fileNum, dictionary, lemmatize);
      }
    }
  }

  lemma {:induction false} RunFilesTerminal(st: PState, files: seq<seq<Token>>, k: nat,
                                            dictionary: set<string>, lemmatize: string -> seq<string>)
    requires k < |files| && files[|files| - 1] != []
    ensures var r := RunFiles(st, files, k, dictionary, lemmatize);
      r.Completed? ==> r.state.buffer == []
    decreases |files| - k
  {
    var a := RunFile(st, files[k], 0, k + 1, k + 1 == |files|, dictionary, lemmatize);
    if a.Completed? {
      if k + 1 == |files| {
        RunFileTerminal(st, files[k], 0, k + 1, dictionary, lemmatize);
      } else {
        RunFilesTerminal(a.state, files, k + 1, dictionary, lemmatize);
      }
    }
  }

  /** When the last file has at least one token, its last token triggers a
      flush, so a completed run leaves no buffered word behind. */
  lemma TerminalFlush(files: seq<seq<Token>>, dictionary: set<string>, lemmatize: string -> seq<string>)
    requires files != [] && files[|files| - 1] != []
    ensures var r := Process(files, dictionary, lemmatize);
      r.Completed? ==> r.state.buffer == []
  {
    RunFilesTerminal(Initial, files, 0, dictionary, lemmatize);
  }

  /** When the last file yields EOF at once, the end-of-corpus flush never
      fires: a word of an earlier file stays in the buffer and never reaches
      any output. */
  lemma EmptyLastFileLosesWords(lemmatize: string -> seq<string>)
    ensures Process([[Token(Word, "a")], []], {"a"}, lemmatize)
         == Completed(PState([BufferedWord("a", 1)], map[], [], map[]))
  {
    assert Lowercase(Truncate("a")) == "a";
  }

  /** The file loop with the end-of-corpus flush never requested: every file
      is run as one that is not the last. */
  function RunFilesUnterminated(st: PState, files: seq<seq<Token>>, k: nat,
                                dictionary: set<string>, lemmatize: string -> seq<string>): Run
    decreases |files| - k
  {
    if k >= |files| then Completed(st)
    else
      match RunFile(st, files[k], 0, k + 1, false, dictionary, lemmatize)
      case IndexOutOfBounds => IndexOutOfBounds
      case Completed(s) => RunFilesUnterminated(s, files, k + 1, dictionary, lemmatize)
  }

  lemma {:induction false} RunFilesEmptyLast(st: PState, files: seq<seq<Token>>, k: nat,
                                             dictionary: set<string>, lemmatize: string -> seq<string>)
    requires k <= |files|
    ensures RunFiles(st, files + [[]], k, dictionary, lemmatize)
         == RunFilesUnterminated(st, files, k, dictionary, lemmatize)
    decreases |files| - k
  {
    var all := files + [[]];
    if k == |files| {
      assert all[k] == [];
      assert RunFile(st, all[k], 0, k + 1, true, dictionary, lemmatize) == Completed(st);
    } else {
      assert all[k] == files[k];
      match RunFile(st, files[k], 0, k + 1, false, dictionary, lemmatize)
      case IndexOutOfBounds =>
      case Completed(s) => RunFilesEmptyLast(s, files, k + 1, dictionary, lemmatize);
    }
  }

  /** For every corpus whose last file yields EOF at once, the end-of-corpus
      flush never fires: the run is that of the earlier files with no
      end-of-corpus flush requested, so whatever they leave in the buffer is
      never written to any output. */
  lemma EmptyLastFileNoFlush(files: seq<seq<Token>>, dictionary: set<string>, lemmatize: string -> seq<string>)
    ensures Process(files + [[]], dictionary, lemmatize)
         == RunFilesUnterminated(Initial, files, 0, dictionary, lemmatize)
  {
    RunFilesEmptyLast(Initial, files, 0, dictionary, lemmatize);
  }

  /** An empty corpus leaves every output empty. */
  lemma EmptyCorpus(dictionary: set<string>, lemmatize: string -> seq<string>)
    ensures Process([], dictionary, lemmatize) == Completed(Initial)
  {
  }

  // ---------------------------------------------------------------------------
  // Frequency accounting

  /** The lexicon key of a token that goes straight to the lexicon. */
  function KeyOf(t: Token, dictionary: set<string>): seq<string> {
    match Classify(t, dictionary)
    case Count(key, _) => [key]
    case _ => []
  }

  function Keys(tokens: seq<Token>, dictionary: set<string>): seq<string>
    decreases |tokens|
  {
    if tokens == [] then [] else KeyOf(tokens[0], dictionary) + Keys(tokens[1..], dictionary)
  }

  /** The keys of all non-word accepted tokens of the corpus, in order. */
  function CorpusKeys(files: seq<seq<Token>>, dictionary: set<string>): seq<string>
    decreases |files|
  {
    if files == [] then [] else Keys(files[0], dictionary) + CorpusKeys(files[1..], dictionary)
  }

  /** Every lexicon count is one non-word token in keys or one line of the
      context output, and the lexicon holds exactly those strings. */
  ghost predicate Accounted(st: PState, keys: seq<string>) {
    && (forall k :: Freq(st.lexicon, k) == multiset(keys)[k] + multiset(st.context)[k])
    && (forall k :: k in st.lexicon <==> k in keys || k in st.context)
  }

  /** The classifier step adds the token's key, if any, to the accounting. */
  lemma StepAccounted(st: PState, t: Token, fileNum: FileNum, dictionary: set<string>, keys: seq<string>)
    requires Accounted(st, keys)
    ensures Accounted(Step(st, t, fileNum, dictionary), keys + KeyOf(t, dictionary))
  {
    assert multiset(keys + KeyOf(t, dictionary)) == multiset(keys) + multiset(KeyOf(t, dictionary));
  }

  /** A flush moves counts from nowhere to the context: each paired lemma is
      one more context line and one more count. */
  lemma FlushAccounted(s: PState, labels: seq<string>, keys: seq<string>)
    requires Accounted(s, keys)
    ensures Flush(s, labels).Completed? ==> Accounted(Flush(s, labels).state, keys)
  {
    FlushEffect(s, labels);
    if |labels| <= TOKEN_BATCH_SIZE {
      var used := labels[..Min(|s.buffer|, |labels|)];
      PutAllEffect(s.lexicon, used, Word);
      assert multiset(s.context + used) == multiset(s.context) + multiset(used);
    }
  }

  lemma AfterTokenAccounted(st: PState, t: Token, fileNum: FileNum, endOfCorpus: bool,
                            dictionary: set<string>, lemmatize: string -> seq<string>, keys: seq<string>)
    requires Accounted(st, keys)
    ensures var r := AfterToken(st, t, fileNum, endOfCorpus, dictionary, lemmatize);
      r.Completed? ==> Accounted(r.state, keys + KeyOf(t, dictionary))
  {
    var s := Step(st, t, fileNum, dictionary);
    StepAccounted(st, t, fileNum, dictionary, keys);
    if |s.buffer| >= FLUSH_THRESHOLD || endOfCorpus {
      FlushAccounted(s, lemmatize(Blob(Texts(s.buffer))), keys + KeyOf(t, dictionary));
    }
  }

  lemma KeysSplit(tokens: seq<Token>, j: nat, dictionary: set<string>)
    requires j < |tokens|
    ensures Keys(tokens[j..], dictionary) == KeyOf(tokens[j], dictionary) + Keys(tokens[j + 1..], dictionary)
  {
    assert tokens[j..][1..] == tokens[j + 1..];
  }

  lemma CorpusKeysSplit(files: seq<seq<Token>>, k: nat, dictionary: set<string>)
    requires k < |files|
    ensures CorpusKeys(files[k..], dictionary) == Keys(files[k], dictionary) + CorpusKeys(files[k + 1..], dictionary)
  {
    assert files[k..][1..] == files[k + 1..];
  }

  lemma {:induction false} RunFileAccounted(st: PState, tokens: seq<Token>, j: nat, fileNum: FileNum, lastFile: bool,
                                            dictionary: set<string>, lemmatize: string -> seq<string>, keys: seq<string>)
    requires j <= |tokens|
    requires Accounted(st, keys)
    ensures var r := RunFile(st, tokens, j, fileNum, lastFile, dictionary, lemmatize);
      r.Completed? ==> Accounted(r.state, keys + Keys(tokens[j..], dictionary))
    decreases |tokens| - j
  {
    if j == |tokens| {
      assert keys + Keys(tokens[j..], dictionary) == keys;
    } else {
      var eoc := lastFile && j + 1 == |tokens|;
      AfterTokenAccounted(st, tokens[j], fileNum, eoc, dictionary, lemmatize, keys);
      RunFileStep(st, tokens, j, fileNum, lastFile, dictionary, lemmatize);
      var a := AfterToken(st, tokens[j], fileNum, eoc, dictionary, lemmatize);
      if a.Completed? {
        var keys' := keys + KeyOf(tokens[j], dictionary);
        RunFileAccounted(a.state, tokens, j + 1, fileNum, lastFile, dictionary, lemmatize, keys');
        KeysSplit(tokens, j, dictionary);
        assert keys' + Keys(tokens[j + 1..], dictionary) == keys + Keys(tokens[j..], dictionary);
      }
    }
  }

  lemma {:induction false} RunFilesAccounted(st: PState, files: seq<seq<Token>>, k: nat,
                                             dictionary: set<string>, lemmatize: string -> seq<string>, keys: seq<string>)
    requires k <= |files|
    requires Accounted(st, keys)
    ensures var r := RunFiles(st, files, k, dictionary, lemmatize);
      r.Completed? ==> Accounted(r.state, keys + CorpusKeys(files[k..], dictionary))
    decreases |files| - k
  {
    if k == |files| {
      assert keys + CorpusKeys(files[k..], dictionary) == keys;
    } else {
      RunFileAccounted(st, files[k], 0, k + 1, k + 1 == |files|, dictionary, lemmatize, keys);
      var a := RunFile(st, files[k], 0, k + 1, k + 1 == |files|, dictionary, lemmatize);
      if a.Completed? {
        assert files[k][0..] == files[k];
        var keys' := keys + Keys(files[k], dictionary);
        RunFilesAccounted(a.state, files, k + 1, dictionary, lemmatize, keys');
        CorpusKeysSplit(files, k, dictionary);
        assert keys' + CorpusKeys(files[k + 1..], dictionary) == keys + CorpusKeys(files[k..], dictionary);
      }
    }
  }

  /** After a completed run, the frequency of every string is the number of
      its non-word tokens plus the number of its lines in the context output,
      and the lexicon holds exactly the strings that occur in either. */
  lemma FrequencyAccounting(files: seq<seq<Token>>, dictionary: set<string>, lemmatize: string -> seq<string>)
    ensures var r := Process(files, dictionary, lemmatize);
      r.Completed? ==> Accounted(r.state, CorpusKeys(files, dictionary))
  {
    RunFilesAccounted(Initial, files, 0, dictionary, lemmatize, []);
    assert files[0..] == files;
  }

  // ---------------------------------------------------------------------------
  // Corpus order of the context output

  function MapSeq(f: string -> string, words: seq<string>): (r: seq<string>)
    ensures |r| == |words| && forall i :: 0 <= i < |words| ==> r[i] == f(words[i])
  {
    seq(|words|, i requires 0 <= i < |words| => f(words[i]))
  }

  /** A lemmatizer that tokenizes the blob into exactly its words and gives
      each word the lemma lemmaOf assigns it. */
  ghost predicate PerWord(lemmatize: string -> seq<string>, lemmaOf: string -> string) {
    forall words: seq<string> {:trigger Lemmatized(lemmatize, words)} ::
      SpaceFree(words) ==> Lemmatized(lemmatize, words) == MapSeq(lemmaOf, words)
  }

  /** The labels the lemmatizer returns for the blob of the given words. */
  function Lemmatized(lemmatize: string -> seq<string>, words: seq<string>): seq<string> {
    lemmatize(Blob(words))
  }

  predicate SpaceFreeDictionary(dictionary: set<string>) {
    forall w :: w in dictionary ==> ' ' !in w
  }

  /** The word a token contributes to the buffer, if any. */
  function WordOf(t: Token, dictionary: set<string>): seq<string> {
    match Classify(t, dictionary)
    case Buffer(w) => [w]
    case _ => []
  }

  function Words(tokens: seq<Token>, dictionary: set<string>): seq<string>
    decreases |tokens|
  {
    if tokens == [] then [] else WordOf(tokens[0], dictionary) + Words(tokens[1..], dictionary)
  }

  /** All dictionary words of the corpus, in file order and scan order. */
  function CorpusWords(files: seq<seq<Token>>, dictionary: set<string>): seq<string>
    decreases |files|
  {
    if files == [] then [] else Words(files[0], dictionary) + CorpusWords(files[1..], dictionary)
  }

  lemma CorpusWordsSplit(files: seq<seq<Token>>, k: nat, dictionary: set<string>)
    requires k < |files|
    ensures CorpusWords(files[k..], dictionary) == Words(files[k], dictionary) + CorpusWords(files[k + 1..], dictionary)
  {
    assert files[k..][1..] == files[k + 1..];
  }

  /** The context output followed by the lemmas of the buffered words is the
      lemma sequence of the words seen so far. */
  ghost predicate Ordered(st: PState, lemmaOf: string -> string, words: seq<string>) {
    st.context + MapSeq(lemmaOf, Texts(st.buffer)) == MapSeq(lemmaOf, words)
  }

  /** The part of WellFormed the order proof needs. */
  ghost predicate Bounded(st: PState, dictionary: set<string>) {
    && |st.buffer| < FLUSH_THRESHOLD
    && (forall i :: 0 <= i < |st.buffer| ==> st.buffer[i].text in dictionary)
  }

  lemma WordsSplit(tokens: seq<Token>, j: nat, dictionary: set<string>)
    requires j < |tokens|
    ensures Words(tokens[j..], dictionary) == WordOf(tokens[j], dictionary) + Words(tokens[j + 1..], dictionary)
  {
    assert tokens[j..][1..] == tokens[j + 1..];
  }

  /** The classifier step appends the token's word, if any, to the buffer. */
  lemma StepOrdered(st: PState, t: Token, fileNum: FileNum, dictionary: set<string>,
                    lemmaOf: string -> string, words: seq<string>)
    requires Bounded(st, dictionary)
    requires Ordered(st, lemmaOf, words)
    ensures var s := Step(st, t, fileNum, dictionary);
      && |s.buffer| <= FLUSH_THRESHOLD
      && (forall i :: 0 <= i < |s.buffer| ==> s.buffer[i].text in dictionary)
      && Ordered(s, lemmaOf, words + WordOf(t, dictionary))
  {
    var s := Step(st, t, fileNum, dictionary);
    var w := WordOf(t, dictionary);
    assert Texts(s.buffer) == Texts(st.buffer) + w;
    assert MapSeq(lemmaOf, words + w) == MapSeq(lemmaOf, words) + MapSeq(lemmaOf, w);
    assert MapSeq(lemmaOf, Texts(s.buffer)) == MapSeq(lemmaOf, Texts(st.buffer)) + MapSeq(lemmaOf, w);
  }

  /** A flush with a one-lemma-per-word lemmatizer moves the lemmas of all
      buffered words to the context output. */
  lemma FlushOrdered(s: PState, dictionary: set<string>, lemmatize: string -> seq<string>,
                     lemmaOf: string -> string, words: seq<string>)
    requires PerWord(lemmatize, lemmaOf) && SpaceFreeDictionary(dictionary)
    requires |s.buffer| <= FLUSH_THRESHOLD
    requires forall i :: 0 <= i < |s.buffer| ==> s.buffer[i].text in dictionary
    requires Ordered(s, lemmaOf, words)
    ensures var r := Flush(s, lemmatize(Blob(Texts(s.buffer))));
      r.Completed? && r.state.buffer == [] && Ordered(r.state, lemmaOf, words)
  {
    assert SpaceFree(Texts(s.buffer));
    var labels := Lemmatized(lemmatize, Texts(s.buffer));
    assert labels == MapSeq(lemmaOf, Texts(s.buffer));
    FlushEffect(s, labels);
    assert labels[..|s.buffer|] == labels;
  }

  lemma AfterTokenOrdered(st: PState, t: Token, fileNum: FileNum, endOfCorpus: bool, dictionary: set<string>,
                          lemmatize: string -> seq<string>, lemmaOf: string -> string, words: seq<string>)
    requires PerWord(lemmatize, lemmaOf) && SpaceFreeDictionary(dictionary)
    requires Bounded(st, dictionary)
    requires Ordered(st, lemmaOf, words)
    ensures var r := AfterToken(st, t, fileNum, endOfCorpus, dictionary, lemmatize);
      r.Completed? && Bounded(r.state, dictionary) && Ordered(r.state, lemmaOf, words + WordOf(t, dictionary))
  {
    var s := Step(st, t, fileNum, dictionary);
    StepOrdered(st, t, fileNum, dictionary, lemmaOf, words);
    if |s.buffer| >= FLUSH_THRESHOLD || endOfCorpus {
      FlushOrdered(s, dictionary, lemmatize, lemmaOf, words + WordOf(t, dictionary));
    }
  }

  lemma {:induction false} RunFileOrdered(st: PState, tokens: seq<Token>, j: nat, fileNum: FileNum, lastFile: bool,
                                          dictionary: set<string>, lemmatize: string -> seq<string>,
                                          lemmaOf: string -> string, words: seq<string>)
    requires PerWord(lemmatize, lemmaOf) && SpaceFreeDictionary(dictionary)
    requires j <= |tokens|
    requires Bounded(st, dictionary)
    requires Ordered(st, lemmaOf, words)
    ensures var r := RunFile(st, tokens, j, fileNum, lastFile, dictionary, lemmatize);
      r.Completed? && Bounded(r.state, dictionary) && Ordered(r.state, lemmaOf, words + Words(tokens[j..], dictionary))
    decreases |tokens| - j
  {
    if j == |tokens| {
      assert words + Words(tokens[j..], dictionary) == words;
    } else {
      var eoc := lastFile && j + 1 == |tokens|;
      AfterTokenOrdered(st, tokens[j], fileNum, eoc, dictionary, lemmatize, lemmaOf, words);
      var a := AfterToken(st, tokens[j], fileNum, eoc, dictionary, lemmatize);
      var words' := words + WordOf(tokens[j], dictionary);
      RunFileStep(st, tokens, j, fileNum, lastFile, dictionary, lemmatize);
      RunFileOrdered(a.state, tokens, j + 1, fileNum, lastFile, dictionary, lemmatize, lemmaOf, words');
      WordsSplit(tokens, j, dictionary);
      assert words' + Words(tokens[j + 1..], dictionary) == words + Words(tokens[j..], dictionary);
    }
  }

  lemma {:induction false} RunFilesOrdered(st: PState, files: seq<seq<Token>>, k: nat,
                                           dictionary: set<string>, lemmatize: string -> seq<string>,
                                           lemmaOf: string -> string, words: seq<string>)
    requires PerWord(lemmatize, lemmaOf) && SpaceFreeDictionary(dictionary)
    requires k <= |files|
    requires Bounded(st, dictionary)
    requires Ordered(st, lemmaOf, words)
    ensures var r := RunFiles(st, files, k, dictionary, lemmatize);
      r.Completed? && Ordered(r.state, lemmaOf, words + CorpusWords(files[k..], dictionary))
    decreases |files| - k
  {
    if k == |files| {
      assert words + CorpusWords(files[k..], dictionary) == words;
    } else {
      RunFileOrdered(st, files[k], 0, k + 1, k + 1 == |files|, dictionary, lemmatize, lemmaOf, words);
      var a := RunFile(st, files[k], 0, k + 1, k + 1 == |files|, dictionary, lemmatize);
      assert files[k][0..] == files[k];
      var words' := words + Words(files[k], dictionary);
      RunFilesOrdered(a.state, files, k + 1, dictionary, lemmatize, lemmaOf, words');
      CorpusWordsSplit(files, k, dictionary);
      assert words' + CorpusWords(files[k + 1..], dictionary) == words + CorpusWords(files[k..], dictionary);
    }
  }

  /** With a lemmatizer that keeps one lemma per word, a run never fails, and
      the context output followed by the lemmas of the words still buffered is
      the lemma sequence of all dictionary words of the corpus, in order,
      across every flush boundary. */
  lemma ContextOrder(files: seq<seq<Token>>, dictionary: set<string>,
                     lemmatize: string -> seq<string>, lemmaOf: string -> string)
    requires PerWord(lemmatize, lemmaOf) && SpaceFreeDictionary(dictionary)
    ensures var r := Process(files, dictionary, lemmatize);
      r.Completed? && Ordered(r.state, lemmaOf, CorpusWords(files, dictionary))
  {
    RunFilesOrdered(Initial, files, 0, dictionary, lemmatize, lemmaOf, []);
    assert files[0..] == files;
  }

  /** With such a lemmatizer and a last file that has tokens, the context output
      is exactly the lemma sequence of the corpus's dictionary words, and the
      frequency of every string is its number of non-word tokens plus the number
      of dictionary words lemmatized to it. */
  lemma CorpusLemmas(files: seq<seq<Token>>, dictionary: set<string>,
                     lemmatize: string -> seq<string>, lemmaOf: string -> string)
    requires PerWord(lemmatize, lemmaOf) && SpaceFreeDictionary(dictionary)
    requires files != [] && files[|files| - 1] != []
    ensures var r := Process(files, dictionary, lemmatize);
      && r.Completed?
      && r.state.context == MapSeq(lemmaOf, CorpusWords(files, dictionary))
      && forall k :: Freq(r.state.lexicon, k)
           == multiset(CorpusKeys(files, dictionary))[k] + multiset(MapSeq(lemmaOf, CorpusWords(files, dictionary)))[k]
  {
    ContextOrder(files, dictionary, lemmatize, lemmaOf);
    TerminalFlush(files, dictionary, lemmatize);
    FrequencyAccounting(files, dictionary, lemmatize);
    var s := Process(files, dictionary, lemmatize).state;
    assert s.context + MapSeq(lemmaOf, Texts(s.buffer)) == s.context;
  }
}
