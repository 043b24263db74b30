/** The export of UATokenizer.writeTokensToFiles: one walk over the lexicon
    keys, in the unspecified order of the map's key set, writing a frequency row
    per WORD key and, for each key of an exported kind, one line per count to
    the output of that kind. */
module Export {
  import opened Tokens
  import opened Lexicons

  /** One line of frequency.txt: a WORD key and its frequency. */
  datatype FrequencyRow = FrequencyRow(key: string, frequency: nat)

  /** The lines of the six output files. */
  datatype Outputs = Outputs(
    frequency: seq<FrequencyRow>,
    email: seq<string>,
    domain: seq<string>,
    word: seq<string>,
    phone: seq<string>,
    price: seq<string>)

  /** The kinds the switch writes a file for; every other kind falls through
      to the default branch and writes nothing. */
  predicate IsExported(kind: Kind) {
    kind.Email? || kind.Domain? || kind.Word? || kind.Phone? || kind.Price?
  }

  /** The lines of the output file of a kind (none for an unexported kind). */
  function FileOf(out: Outputs, kind: Kind): seq<string> {
    match kind
    case Email => out.email
    case Domain => out.domain
    case Word => out.word
    case Phone => out.phone
    case Price => out.price
    case _ => []
  }

  /** How many lines image should have in the file of kind, once the keys in
      done have been written: its frequency if it was written and has that
      kind, otherwise none. */
  function Expected(lexicon: Lexicon, done: set<string>, kind: Kind, image: string): nat {
    if image in done && image in lexicon && lexicon[image].kind == kind then lexicon[image].frequency else 0
  }

  /** How many frequency rows equal row, once the keys in done have been
      written: one for a WORD key with that frequency, otherwise none. */
  function ExpectedRows(lexicon: Lexicon, done: set<string>, row: FrequencyRow): nat {
    if row.key in done && row.key in lexicon && lexicon[row.key].kind == Word
       && lexicon[row.key].frequency == row.frequency then 1 else 0
  }

  /** Writing one more key adds exactly that key's rows and lines. */
  lemma ExpectedStep(lexicon: Lexicon, done: set<string>, key: string)
    requires key in lexicon && key !in done
    ensures forall row ::
      ExpectedRows(lexicon, done + {key}, row)
      == ExpectedRows(lexicon, done, row)
         + (if lexicon[key].kind == Word then multiset{FrequencyRow(key, lexicon[key].frequency)} else multiset{})[row]
    ensures forall k, s ::
      Expected(lexicon, done + {key}, k, s)
      == Expected(lexicon, done, k, s) + (if k == lexicon[key].kind && s == key then lexicon[key].frequency else 0)
  {
  }

  /** Once every key is written, the expected rows and lines are those of the
      whole lexicon. */
  lemma ExpectedAll(lexicon: Lexicon)
    ensures forall image, f ::
      ExpectedRows(lexicon, lexicon.Keys, FrequencyRow(image, f))
      == (if image in lexicon && lexicon[image].kind == Word && lexicon[image].frequency == f then 1 else 0)
    ensures forall kind, image ::
      Expected(lexicon, lexicon.Keys, kind, image)
      == (if image in lexicon && lexicon[image].kind == kind then lexicon[image].frequency else 0)
  {
  }

  /** The switch of the inner loop: one line with the image to the file of
      the kind, if the kind has one. */
  function WriteLine(out: Outputs, kind: Kind, image: string): (r: Outputs)
    ensures r.frequency == out.frequency
    ensures forall k :: IsExported(k) ==>
      FileOf(r, k) == FileOf(out, k) + (if k == kind then [image] else [])
  {
    match kind
    case Email => out.(email := out.email + [image])
    case Domain => out.(domain := out.domain + [image])
    case Word => out.(word := out.word + [image])
    case Phone => out.(phone := out.phone + [image])
    case Price => out.(price := out.price + [image])
    case _ => out
  }

  /** The inner loop of the export: count lines with the image, written
      through the switch on the kind. */
  method WriteCopies(out: Outputs, kind: Kind, image: string, count: nat) returns (r: Outputs)
    ensures r.frequency == out.frequency
    ensures forall k, s :: IsExported(k) ==>
      multiset(FileOf(r, k))[s] == multiset(FileOf(out, k))[s] + (if k == kind && s == image then count else 0)
  {
    r := out;
    var i := 0;
    while i < count
      invariant 0 <= i <= count
      invariant r.frequency == out.frequency
      invariant forall k, s :: IsExported(k) ==>
        multiset(FileOf(r, k))[s] == multiset(FileOf(out, k))[s] + (if k == kind && s == image then i else 0)
    {
      r := WriteLine(r, kind, image);
      i := i + 1;
    }
  }

  /** The body of the export loop for one key: its frequency row if its kind
      is WORD, then as many lines as its frequency to the file of its kind. */
  method WriteEntry(out: Outputs, key: string, entry: Entry) returns (r: Outputs)
    ensures multiset(r.frequency)
         == multiset(out.frequency) + (if entry.kind == Word then multiset{FrequencyRow(key, entry.frequency)} else multiset{})
    ensures forall k, s :: IsExported(k) ==>
      multiset(FileOf(r, k))[s] == multiset(FileOf(out, k))[s] + (if k == entry.kind && s == key then entry.frequency else 0)
  {
    r := out;
    if entry.kind == Word {
      r := r.(frequency := r.frequency + [FrequencyRow(key, entry.frequency)]);
    }
    assert forall k :: FileOf(r, k) == FileOf(out, k);
    r := WriteCopies(r, entry.kind, key, entry.frequency);
  }

  /** Writes the lexicon out. Whatever order the keys come in, frequency.txt
      has exactly one row per WORD key, carrying its frequency, and the file of
      each exported kind holds every key of that kind exactly as many times as
      its frequency, and nothing else. */
  method WriteTokensToFiles(lexicon: Lexicon) returns (out: Outputs)
    ensures forall image, f ::
      multiset(out.frequency)[FrequencyRow(image, f)]
      == (if image in lexicon && lexicon[image].kind == Word && lexicon[image].frequency == f then 1 else 0)
    ensures forall kind, image :: IsExported(kind) ==>
      multiset(FileOf(out, kind))[image]
      == (if image in lexicon && lexicon[image].kind == kind then lexicon[image].frequency else 0)
  {
    out := Outputs([], [], [], [], [], []);
    var keys := lexicon.Keys;
    ghost var done: set<string> := {};
    while keys != {}
      invariant keys + done == lexicon.Keys && keys !! done
      invariant forall row :: multiset(out.frequency)[row] == ExpectedRows(lexicon, done, row)
      invariant forall kind, image :: IsExported(kind) ==>
        multiset(FileOf(out, kind))[image] == Expected(lexicon, done, kind, image)
      decreases |keys|
    {
      var key :| key in keys;
      out := WriteEntry(out, key, lexicon[key]);
      ExpectedStep(lexicon, done, key);
      keys := keys - {key};
      done := done + {key};
    }
    ExpectedAll(lexicon);
  }
}
