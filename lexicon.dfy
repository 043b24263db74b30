/** The run-wide lexicon: a map from a token string to its frequency and the
    kind stored with it, updated by a read-then-put on every non-word token
    and on every lemma. */
module Lexicons {
  import opened Tokens

  /** The value the lexicon keeps per string: (frequency, kind). */
  datatype Entry = Entry(frequency: nat, kind: Kind)

  type Lexicon = map<string, Entry>

  /** The frequency of a key, 0 when the lexicon does not hold it. */
  function Freq(lexicon: Lexicon, key: string): nat {
    if key in lexicon then lexicon[key].frequency else 0
  }

  /** One lexicon update: an absent key enters with frequency 1, a present key
      gets its old frequency plus one; the entry is replaced as a whole, so the
      kind of this update is the one kept. No other key changes. */
  function Put(lexicon: Lexicon, key: string, kind: Kind): (r: Lexicon)
    ensures r.Keys == lexicon.Keys + {key}
    ensures key !in lexicon ==> r[key] == Entry(1, kind)
    ensures key in lexicon ==> r[key] == Entry(lexicon[key].frequency + 1, kind)
    ensures forall k :: k in lexicon && k != key ==> r[k] == lexicon[k]
  {
    var frequency := if key in lexicon then lexicon[key].frequency + 1 else 1;
    lexicon[key := Entry(frequency, kind)]
  }

  /** The updates for a sequence of keys, all with the same kind, in order. */
  function PutAll(lexicon: Lexicon, keys: seq<string>, kind: Kind): Lexicon
    decreases |keys|
  {
    if keys == [] then lexicon
    else Put(PutAll(lexicon, keys[..|keys| - 1], kind), keys[|keys| - 1], kind)
  }

  /** After a run of updates, a key is present exactly when it was before or
      was updated; its frequency grew by the number of its updates; an updated
      key carries the kind of the updates, and every other key keeps its entry. */
  lemma {:induction false} PutAllEffect(lexicon: Lexicon, keys: seq<string>, kind: Kind)
    ensures forall k :: k in PutAll(lexicon, keys, kind) <==> k in lexicon || k in keys
    ensures forall k :: Freq(PutAll(lexicon, keys, kind), k) == Freq(lexicon, k) + multiset(keys)[k]
    ensures forall k :: k in keys ==> PutAll(lexicon, keys, kind)[k].kind == kind
    ensures forall k :: k !in keys && k in lexicon ==> PutAll(lexicon, keys, kind)[k] == lexicon[k]
    decreases |keys|
  {
    if keys != [] {
      var init, last := keys[..|keys| - 1], keys[|keys| - 1];
      assert keys == init + [last];
      PutAllEffect(lexicon, init, kind);
      assert multiset(keys) == multiset(init) + multiset{last};
    }
  }

  /** Later updates of a key overwrite the kind of earlier ones. */
  lemma LastKindWins(lexicon: Lexicon, key: string, first: Kind, second: Kind)
    ensures Put(Put(lexicon, key, first), key, second)[key] == Entry(Freq(lexicon, key) + 2, second)
  {
  }
}
