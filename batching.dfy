/** The word buffer and the flush: the text blob handed to the lemmatizer, the
    positional pairing of lemmas with buffered words, and the routing of each
    lemma to the context output, the per-file output and the lexicon. */
module Batching {
  import opened Tokens
  import opened Lexicons

  /** Length of the word buffer array. */
  const TOKEN_BATCH_SIZE: nat := 1000000

  /** TOKEN_BATCH_SIZE * TOKEN_BATCH_MAX_PERCENT (0.9f): the single-precision
      product is exactly 900000.0, so the float comparison with the int count is
      the integer comparison with this constant. */
  const FLUSH_THRESHOLD: nat := 900000

  /** File numbers count the input files from 1. */
  type FileNum = n: int | 1 <= n witness 1

  /** One buffer slot: a normalised word and the number of its file. */
  datatype BufferedWord = BufferedWord(text: string, fileNum: FileNum)

  /** The pipeline state that outlives a token: the buffered words, the
      lexicon, the lines written to context.txt, and the lines of every
      temp file, keyed by file number. */
  datatype PState = PState(
    buffer: seq<BufferedWord>,
    lexicon: Lexicon,
    context: seq<string>,
    temp: map<FileNum, seq<string>>)

  /** A run either goes on with a new state or dies on the array index past
      the end of the word buffer (the exception nothing catches). */
  datatype Run = Completed(state: PState) | IndexOutOfBounds

  function Texts(buffer: seq<BufferedWord>): (r: seq<string>)
    ensures |r| == |buffer| && forall i :: 0 <= i < |buffer| ==> r[i] == buffer[i].text
  {
    seq(|buffer|, i requires 0 <= i < |buffer| => buffer[i].text)
  }

  /** The text given to the lemmatizer: every word followed by one space. */
  function Blob(words: seq<string>): string
    decreases |words|
  {
    if words == [] then "" else words[0] + " " + Blob(words[1..])
  }

  lemma {:induction false} BlobSnoc(words: seq<string>, w: string)
    ensures Blob(words + [w]) == Blob(words) + w + " "
    decreases |words|
  {
    if words != [] {
      assert (words + [w])[1..] == words[1..] + [w];
      BlobSnoc(words[1..], w);
    }
  }

  predicate SpaceFree(words: seq<string>) {
    forall i :: 0 <= i < |words| ==> ' ' !in words[i]
  }

  /** Index of the first space in s, or |s| when there is none. */
  function FirstSpace(s: string): (r: nat)
    ensures r <= |s|
    ensures r < |s| ==> s[r] == ' '
    ensures forall i :: 0 <= i < r ==> s[i] != ' '
    decreases |s|
  {
    if s == [] then 0 else if s[0] == ' ' then 0 else 1 + FirstSpace(s[1..])
  }

  /** Splits a text into its space-terminated fields: how a whitespace
      tokenizer reads the blob back. */
  function Fields(s: string): seq<string>
    decreases |s|
  {
    if s == [] then []
    else
      var i := FirstSpace(s);
      if i == |s| then [s] else [s[..i]] + Fields(s[i + 1..])
  }

  /** The blob keeps every buffered word and their order: splitting it on its
      spaces gives the words back, provided no word holds a space. */
  lemma {:induction false} BlobFields(words: seq<string>)
    requires SpaceFree(words)
    ensures Fields(Blob(words)) == words
    decreases |words|
  {
    if words != [] {
      var w, rest := words[0], Blob(words[1..]);
      var s := w + " " + rest;
      assert s[|w|] == ' ';
      assert forall i :: 0 <= i < |w| ==> s[i] == w[i];
      FirstSpaceOfWord(s, w);
      assert s[..|w|] == w;
      assert s[|w| + 1..] == rest;
      assert SpaceFree(words[1..]) by {
        forall i | 0 <= i < |words[1..]| ensures ' ' !in words[1..][i] {
          assert words[1..][i] == words[i + 1];
        }
      }
      BlobFields(words[1..]);
    }
  }

  lemma FirstSpaceOfWord(s: string, w: string)
    requires |w| < |s| && s[|w|] == ' ' && ' ' !in w
    requires forall i :: 0 <= i < |w| ==> s[i] == w[i]
    ensures FirstSpace(s) == |w|
  {
  }

  /** The lemma of position i goes with the buffered word of position i, for
      every position both sequences have; surplus labels and surplus buffered
      words have no partner. */
  function Pairs(buffer: seq<BufferedWord>, labels: seq<string>): (ps: seq<(string, FileNum)>)
    ensures |ps| == Min(|buffer|, |labels|)
    ensures forall i :: 0 <= i < |ps| ==> ps[i] == (labels[i], buffer[i].fileNum)
  {
    seq(Min(|buffer|, |labels|), i requires 0 <= i < Min(|buffer|, |labels|) => (labels[i], buffer[i].fileNum))
  }

  /** What the label loop of a flush has written so far, and the file number
      of the previous entry (0 before the first). */
  datatype Sink = Sink(
    lexicon: Lexicon,
    context: seq<string>,
    temp: map<FileNum, seq<string>>,
    current: int)

  function Lines(temp: map<FileNum, seq<string>>, f: FileNum): seq<string> {
    if f in temp then temp[f] else []
  }

  /** One iteration of the label loop: a file number other than the previous
      entry's (re)opens that file's temp output, which truncates it; the lemma
      is counted in the lexicon as a WORD, then appended to the context and to
      the open temp output. */
  function Route(s: Sink, p: (string, FileNum)): Sink {
    var (text, f) := p;
    var outputs := if f != s.current then s.temp[f := []] else s.temp;
    Sink(Put(s.lexicon, text, Word), s.context + [text], outputs[f := Lines(outputs, f) + [text]], f)
  }

  function RouteAll(s: Sink, ps: seq<(string, FileNum)>): Sink
    decreases |ps|
  {
    if ps == [] then s else Route(RouteAll(s, ps[..|ps| - 1]), ps[|ps| - 1])
  }

  lemma RouteAllSnoc(s: Sink, ps: seq<(string, FileNum)>, i: nat)
    requires i < |ps|
    ensures RouteAll(s, ps[..i + 1]) == Route(RouteAll(s, ps[..i]), ps[i])
  {
    assert ps[..i + 1][..i] == ps[..i];
  }

  /** A flush, given the labels the lemmatizer returned for the blob: a label
      list longer than the buffer array runs the index off its end; otherwise
      the paired lemmas are routed and the buffer is emptied. */
  function Flush(st: PState, labels: seq<string>): Run {
    if |labels| > TOKEN_BATCH_SIZE then IndexOutOfBounds
    else
      var s := RouteAll(Sink(st.lexicon, st.context, st.temp, 0), Pairs(st.buffer, labels));
      Completed(PState([], s.lexicon, s.context, s.temp))
  }

  function Lemmas(ps: seq<(string, FileNum)>): (r: seq<string>)
    ensures |r| == |ps| && forall i :: 0 <= i < |ps| ==> r[i] == ps[i].0
  {
    seq(|ps|, i requires 0 <= i < |ps| => ps[i].0)
  }

  /** Whether some pair belongs to file f. */
  predicate Mentions(ps: seq<(string, FileNum)>, f: FileNum)
    decreases |ps|
  {
    ps != [] && (ps[|ps| - 1].1 == f || Mentions(ps[..|ps| - 1], f))
  }

  /** The lemmas of the pairs that belong to file f, in order. */
  function RoutedTo(ps: seq<(string, FileNum)>, f: FileNum): seq<string>
    decreases |ps|
  {
    if ps == [] then []
    else RoutedTo(ps[..|ps| - 1], f) + (if ps[|ps| - 1].1 == f then [ps[|ps| - 1].0] else [])
  }

  lemma {:induction false} RoutedToAbsent(ps: seq<(string, FileNum)>, f: FileNum)
    requires !Mentions(ps, f)
    ensures RoutedTo(ps, f) == []
    decreases |ps|
  {
    if ps != [] {
      RoutedToAbsent(ps[..|ps| - 1], f);
    }
  }

  predicate Sorted(ps: seq<(string, FileNum)>) {
    forall i, j :: 0 <= i < j < |ps| ==> ps[i].1 <= ps[j].1
  }

  predicate SortedBuffer(buffer: seq<BufferedWord>) {
    forall i, j :: 0 <= i < j < |buffer| ==> buffer[i].fileNum <= buffer[j].fileNum
  }

  /** The positional pairing of a flush: the paired lemmas are the labels up
      to the shorter of the two lengths, so surplus labels and surplus buffered
      words are dropped, and a buffer in file order gives pairs in file order. */
  lemma PairsAlign(buffer: seq<BufferedWord>, labels: seq<string>)
    ensures Lemmas(Pairs(buffer, labels)) == labels[..Min(|buffer|, |labels|)]
    ensures SortedBuffer(buffer) ==> Sorted(Pairs(buffer, labels))
    ensures forall i :: 0 <= i < |Pairs(buffer, labels)| ==> Pairs(buffer, labels)[i].1 == buffer[i].fileNum
  {
    var ps := Pairs(buffer, labels);
    assert forall i :: 0 <= i < |ps| ==> Lemmas(ps)[i] == labels[..Min(|buffer|, |labels|)][i];
  }

  /** The label loop appends the lemmas to the context in order and makes one
      WORD update of the lexicon per lemma. */
  lemma {:induction false} RouteAllWrites(s: Sink, ps: seq<(string, FileNum)>)
    ensures RouteAll(s, ps).context == s.context + Lemmas(ps)
    ensures RouteAll(s, ps).lexicon == PutAll(s.lexicon, Lemmas(ps), Word)
    ensures ps != [] ==> RouteAll(s, ps).current == ps[|ps| - 1].1
    ensures ps == [] ==> RouteAll(s, ps) == s
    decreases |ps|
  {
    if ps != [] {
      var init, last := ps[..|ps| - 1], ps[|ps| - 1];
      RouteAllWrites(s, init);
      assert Lemmas(ps) == Lemmas(init) + [last.0];
      assert Lemmas(ps)[..|ps| - 1] == Lemmas(init);
    }
  }

  /** One iteration of the label loop, as seen by the temp outputs. */
  lemma RouteTemp(r: Sink, p: (string, FileNum))
    ensures p.1 != r.current ==> Route(r, p).temp == r.temp[p.1 := [p.0]]
    ensures p.1 == r.current ==> Route(r, p).temp == r.temp[p.1 := Lines(r.temp, p.1) + [p.0]]
  {
    assert [] + [p.0] == [p.0];
  }

  lemma SortedInit(ps: seq<(string, FileNum)>)
    requires Sorted(ps) && ps != []
    ensures Sorted(ps[..|ps| - 1])
  {
  }

  /** In sorted pairs no file number exceeds the last one. */
  lemma {:induction false} SortedMentions(ps: seq<(string, FileNum)>, f: FileNum)
    requires Sorted(ps) && Mentions(ps, f)
    ensures f <= ps[|ps| - 1].1
    decreases |ps|
  {
    if ps[|ps| - 1].1 != f {
      var init := ps[..|ps| - 1];
      SortedInit(ps);
      SortedMentions(init, f);
      assert init[|init| - 1] == ps[|ps| - 2];
    }
  }

  /** The label loop over pairs sorted by file number, started with no previous
      file: every file with pairs ends up holding exactly its own lemmas in
      order, whatever it held before, and every other temp output is untouched. */
  lemma {:induction false} RouteAllTemp(s: Sink, ps: seq<(string, FileNum)>)
    requires s.current == 0
    requires Sorted(ps)
    ensures forall f :: Mentions(ps, f) ==> f in RouteAll(s, ps).temp && RouteAll(s, ps).temp[f] == RoutedTo(ps, f)
    ensures forall f :: !Mentions(ps, f) ==> (f in RouteAll(s, ps).temp <==> f in s.temp)
    ensures forall f :: !Mentions(ps, f) && f in s.temp ==> RouteAll(s, ps).temp[f] == s.temp[f]
    decreases |ps|
  {
    if ps != [] {
      var init, last := ps[..|ps| - 1], ps[|ps| - 1];
      SortedInit(ps);
      RouteAllTemp(s, init);
      RouteAllWrites(s, init);
      var r := RouteAll(s, init);
      assert RouteAll(s, ps) == Route(r, last);
      var t := Route(r, last).temp;
      RouteTemp(r, last);
      if last.1 != r.current {
        if init != [] && Mentions(init, last.1) {
          SortedMentions(init, last.1);
        }
        RoutedToAbsent(init, last.1);
      }
      assert last.1 in t && t[last.1] == RoutedTo(ps, last.1);
      forall f | f != last.1
        ensures (f in t <==> f in r.temp) && (f in t ==> t[f] == r.temp[f])
        ensures RoutedTo(ps, f) == RoutedTo(init, f)
        ensures Mentions(ps, f) <==> Mentions(init, f)
      {
      }
    }
  }

  /** A flush fails exactly when the lemmatizer returns more labels than the
      buffer array has slots. Otherwise it pairs the first min(n, |labels|)
      labels with the n buffered words: the context gets those lemmas in order,
      the lexicon one WORD update for each, and the buffer is left empty;
      buffered words without a label are dropped. */
  lemma FlushEffect(st: PState, labels: seq<string>)
    ensures Flush(st, labels).IndexOutOfBounds? <==> |labels| > TOKEN_BATCH_SIZE
    ensures |labels| <= TOKEN_BATCH_SIZE ==>
      var m := Min(|st.buffer|, |labels|);
      var s := Flush(st, labels).state;
      && s.buffer == []
      && s.context == st.context + labels[..m]
      && s.lexicon == PutAll(st.lexicon, labels[..m], Word)
  {
    var ps := Pairs(st.buffer, labels);
    if |labels| <= TOKEN_BATCH_SIZE {
      RouteAllWrites(Sink(st.lexicon, st.context, st.temp, 0), ps);
      assert Lemmas(ps) == labels[..Min(|st.buffer|, |labels|)];
    }
  }

  /** Routing of a flush over a buffer sorted by file number (as the token loop
      fills it): each file with a paired lemma has its temp output replaced by
      exactly its paired lemmas, in buffer order, so an earlier batch of the same
      file is lost; every other temp output is left as it was. */
  lemma FlushRouting(st: PState, labels: seq<string>)
    requires SortedBuffer(st.buffer)
    requires |labels| <= TOKEN_BATCH_SIZE
    ensures var ps := Pairs(st.buffer, labels);
      var temp := Flush(st, labels).state.temp;
      && (forall f :: Mentions(ps, f) ==> f in temp && temp[f] == RoutedTo(ps, f))
      && (forall f :: !Mentions(ps, f) ==> (f in temp <==> f in st.temp))
      && (forall f :: !Mentions(ps, f) && f in st.temp ==> temp[f] == st.temp[f])
  {
    RouteAllTemp(Sink(st.lexicon, st.context, st.temp, 0), Pairs(st.buffer, labels));
  }
}
