/** The imperative token loop of UATokenizer.main: the word buffer is an array
    of TOKEN_BATCH_SIZE slots filled from the front, the lexicon and the outputs
    are fields updated in place, and the loops over files, tokens, buffer slots
    and labels are while loops. Each method is proved to compute the functions
    of modules Batching and Pipeline. */
module Driver {
  import opened Tokens
  import opened Lexicons
  import opened Batching
  import opened Pipeline

  /** A buffer slot: empty (null) or holding a word with its file number. */
  datatype Option<T> = None | Some(value: T)

  class TokenPipeline {
    /** The word token buffer; the slots from count on are empty. */
    var buffer: array<Option<BufferedWord>>
    /** The number of filled slots (wordTokenCount). */
    var count: nat
    var lexicon: Lexicon
    /** The lines written to context.txt. */
    var context: seq<string>
    /** The lines of each temp file, by file number. */
    var temp: map<FileNum, seq<string>>
    /** The filled slots, in order. */
    ghost var Buffered: seq<BufferedWord>

    /** The buffer array holds Buffered in its first count slots and nothing
        after them, and a flush is due before the array could overflow. */
    ghost predicate Valid()
      reads this, buffer
    {
      && buffer.Length == TOKEN_BATCH_SIZE
      && count == |Buffered| <= FLUSH_THRESHOLD
      && (forall i :: 0 <= i < count ==> buffer[i] == Some(Buffered[i]))
      && (forall i :: count <= i < buffer.Length ==> buffer[i] == None)
    }

    /** The state the functional model speaks about. */
    ghost function State(): PState
      reads this
    {
      PState(Buffered, lexicon, context, temp)
    }

    /** A fresh pipeline: an empty buffer array, lexicon and outputs. */
    constructor ()
      ensures Valid() && State() == Initial && fresh(buffer)
    {
      buffer := new Option<BufferedWord>[TOKEN_BATCH_SIZE](_ => None);
      count := 0;
      lexicon := map[];
      context := [];
      temp := map[];
      Buffered := [];
    }

    /** The read-then-put lexicon update: frequency one more than the stored
        one (1 for a new key), stored together with the given kind. */
    method AddToLexicon(key: string, kind: Kind)
      modifies this`lexicon
      ensures lexicon == Put(old(lexicon), key, kind)
    {
      var frequency := 1;
      if key in lexicon {
        frequency := lexicon[key].frequency + 1;
      }
      lexicon := lexicon[key := Entry(frequency, kind)];
    }

    /** The handling of one token: accepted kinds are truncated; WORD and
        LETTER images are lower-cased and, if the dictionary has them, stored
        in the next free slot; other accepted kinds go to the lexicon. */
    method Accept(t: Token, fileNum: FileNum, dictionary: set<string>)
      requires Valid() && count < FLUSH_THRESHOLD
      modifies this, buffer
      ensures Valid() && buffer == old(buffer)
      ensures State() == Step(old(State()), t, fileNum, dictionary)
    {
      if IsAccepted(t.kind) {
        var image := t.image;
        if |image| > MAX_TOKEN_CHAR_LENGTH {
          image := image[..MAX_TOKEN_CHAR_LENGTH];
        }
        if t.kind == Word || t.kind == Letter {
          image := Lowercase(image);
          if image in dictionary {
            buffer[count] := Some(BufferedWord(image, fileNum));
            count := count + 1;
            Buffered := Buffered + [BufferedWord(image, fileNum)];
          }
        } else {
          AddToLexicon(image, t.kind);
        }
      }
    }

    /** The text handed to the lemmatizer: the filled slots from the front up
        to the first empty one, each word followed by a space. */
    method BuildBlob() returns (blob: string)
      requires Valid()
      ensures blob == Blob(Texts(Buffered))
    {
      blob := "";
      var i := 0;
      while i < buffer.Length
        invariant 0 <= i <= count
        invariant blob == Blob(Texts(Buffered[..i]))
        decreases buffer.Length - i
      {
        match buffer[i] {
          case None =>
            break;
          case Some(w) =>
            assert Texts(Buffered[..i + 1]) == Texts(Buffered[..i]) + [w.text];
            BlobSnoc(Texts(Buffered[..i]), w.text);
            blob := blob + w.text + " ";
        }
        i := i + 1;
      }
      assert Buffered[..i] == Buffered;
    }

    /** The label loop of a flush: label i goes with buffer slot i, empty
        slots are skipped, and a label index past the end of the array fails
        the run. */
    method RouteLabels(labels: seq<string>) returns (crashed: bool)
      requires Valid()
      modifies this`lexicon, this`context, this`temp
      ensures crashed <==> |labels| > TOKEN_BATCH_SIZE
      ensures !crashed ==>
        var s := RouteAll(Sink(old(lexicon), old(context), old(temp), 0), Pairs(Buffered, labels));
        lexicon == s.lexicon && context == s.context && temp == s.temp
    {
      ghost var start := Sink(lexicon, context, temp, 0);
      ghost var ps := Pairs(Buffered, labels);
      var currentFile := 0;
      var i := 0;
      while i < |labels|
        invariant 0 <= i <= |labels| && i <= buffer.Length
        invariant Valid()
        invariant Sink(lexicon, context, temp, currentFile) == RouteAll(start, ps[..Min(i, |ps|)])
      {
        if i >= buffer.Length {
          return true;
        }
        match buffer[i] {
          case None =>
            assert count <= i;
            assert Min(i + 1, |ps|) == Min(i, |ps|);
          case Some(w) =>
            assert i < count && w == Buffered[i];
            assert i < |ps| && ps[i] == (labels[i], w.fileNum);
            RouteAllSnoc(start, ps, i);
            currentFile := RouteLabel(labels[i], w.fileNum, currentFile);
        }
        i := i + 1;
      }
      assert ps[..Min(i, |ps|)] == ps;
      return false;
    }

    /** Processing of the word buffer: lemmatize the blob, route the labels,
        then replace the buffer by a fresh empty array. */
    method FlushBuffer(lemmatize: string -> seq<string>) returns (crashed: bool)
      requires Valid()
      modifies this
      ensures var r := Flush(old(State()), lemmatize(Blob(Texts(old(Buffered)))));
        && crashed == r.IndexOutOfBounds?
        && (!crashed ==> Valid() && State() == r.state && fresh(buffer))
    {
      var blob := BuildBlob();
      var labels := lemmatize(blob);
      ghost var before := State();
      crashed := RouteLabels(labels);
      if crashed {
        return;
      }
      assert Flush(before, labels) == Completed(PState([], lexicon, context, temp));
      buffer := new Option<BufferedWord>[TOKEN_BATCH_SIZE](_ => None);
      count := 0;
      Buffered := [];
    }

    /** One paired lemma of a flush: a file number other than the previous
        one reopens, and so empties, that file's temp output; then the lemma
        is counted in the lexicon as a WORD and written to the context output
        and to the open temp output. */
    method RouteLabel(text: string, fileNum: FileNum, currentFile: int) returns (newFile: int)
      modifies this`lexicon, this`context, this`temp
      ensures Sink(lexicon, context, temp, newFile)
           == Route(Sink(old(lexicon), old(context), old(temp), currentFile), (text, fileNum))
    {
      newFile := currentFile;
      var changed := false;
      if newFile != fileNum {
        newFile := fileNum;
        changed := true;
      }
      if changed {
        temp := temp[newFile := []];
      }
      AddToLexicon(text, Word);
      context := context + [text];
      temp := temp[newFile := Lines(temp, newFile) + [text]];
    }

    /** One iteration of the token loop: handle the token, then flush when the
        buffer has reached the threshold or the token is the last of the last
        file. */
    method HandleToken(t: Token, fileNum: FileNum, endOfCorpus: bool,
                       dictionary: set<string>, lemmatize: string -> seq<string>) returns (crashed: bool, flushed: bool)
      requires Valid() && count < FLUSH_THRESHOLD
      modifies this, buffer
      ensures var r := AfterToken(old(State()), t, fileNum, endOfCorpus, dictionary, lemmatize);
        && crashed == r.IndexOutOfBounds?
        && (!crashed ==> Valid() && count < FLUSH_THRESHOLD && State() == r.state)
        && (!crashed ==> buffer == old(buffer) || fresh(buffer))
      ensures !crashed ==>
        flushed == (|Step(old(State()), t, fileNum, dictionary).buffer| >= FLUSH_THRESHOLD || endOfCorpus)
    {
      Accept(t, fileNum, dictionary);
      crashed, flushed := false, false;
      if count >= FLUSH_THRESHOLD || endOfCorpus {
        crashed := FlushBuffer(lemmatize);
        flushed := true;
      }
    }

    /** The token loop over one file. A flush before the file's EOF ends the
        loop. */
    method ScanFile(tokens: seq<Token>, fileNum: FileNum, lastFile: bool,
                    dictionary: set<string>, lemmatize: string -> seq<string>) returns (crashed: bool)
      requires Valid() && count < FLUSH_THRESHOLD
      modifies this, buffer
      ensures var r := RunFile(old(State()), tokens, 0, fileNum, lastFile, dictionary, lemmatize);
        && crashed == r.IndexOutOfBounds?
        && (!crashed ==> Valid() && count < FLUSH_THRESHOLD && State() == r.state)
        && (!crashed ==> buffer == old(buffer) || fresh(buffer))
    {
      crashed := false;
      var j := 0;
      while j < |tokens|
        invariant 0 <= j <= |tokens|
        invariant Valid() && count < FLUSH_THRESHOLD
        invariant buffer == old(buffer) || fresh(buffer)
        invariant RunFile(old(State()), tokens, 0, fileNum, lastFile, dictionary, lemmatize)
               == RunFile(State(), tokens, j, fileNum, lastFile, dictionary, lemmatize)
        decreases |tokens| - j
      {
        var nextIsEof := j + 1 == |tokens|;
        RunFileStep(State(), tokens, j, fileNum, lastFile, dictionary, lemmatize);
        var flushed;
        crashed, flushed := HandleToken(tokens[j], fileNum, nextIsEof && lastFile, dictionary, lemmatize);
        if crashed {
          return;
        }
        j := j + 1;
        if flushed && nextIsEof {
          break;
        }
      }
    }
  }

  /** The token loop over all files, in listing order, with file numbers from
      1. It stops at the first crashing flush; otherwise it returns the lexicon,
      the context output and the temp outputs the run leaves behind. */
  method Tokenize(files: seq<seq<Token>>, dictionary: set<string>, lemmatize: string -> seq<string>)
    returns (crashed: bool, lexicon: Lexicon, context: seq<string>, temp: map<FileNum, seq<string>>)
    ensures var r := Process(files, dictionary, lemmatize);
      && crashed == r.IndexOutOfBounds?
      && (!crashed ==> lexicon == r.state.lexicon && context == r.state.context && temp == r.state.temp)
  {
    lexicon, context, temp := map[], [], map[];
    var t := new TokenPipeline();
    crashed := false;
    var k := 0;
    while k < |files|
      invariant 0 <= k <= |files|
      invariant t.Valid() && t.count < FLUSH_THRESHOLD && fresh(t.buffer)
      invariant Process(files, dictionary, lemmatize) == RunFiles(t.State(), files, k, dictionary, lemmatize)
      decreases |files| - k
    {
      crashed := t.ScanFile(files[k], k + 1, k + 1 == |files|, dictionary, lemmatize);
      if crashed {
        return;
      }
      k := k + 1;
    }
    lexicon, context, temp := t.lexicon, t.context, t.temp;
  }
}
