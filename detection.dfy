/** `EnhancedBarcodeScanner.detect`: decode every preprocessed variant and keep
    one symbol per key `type + ":" + text`, the first one met, in the order the
    keys were first met. The symbol decoder and the lossy byte-to-text decoding
    are parameters. */
module Detection {
  import opened Preprocess

  /** Bounding box reported by the decoder. */
  datatype Rect = Rect(left: int, top: int, width: int, height: int)

  /** One decoded symbol: its symbology name, raw payload and position. */
  datatype Symbol = Symbol(symbolType: string, data: seq<bv8>, rect: Rect)

  /** The de-duplication key: symbol type, a colon, and the payload as the lossy
      UTF-8 decoding `text` renders it. */
  function Key(b: Symbol, text: seq<bv8> -> string): string {
    b.symbolType + ":" + text(b.data)
  }

  /** The keys of all symbols in `s`. */
  function KeySet(s: seq<Symbol>, text: seq<bv8> -> string): set<string> {
    set i | 0 <= i < |s| :: Key(s[i], text)
  }

  /** The decoder's output for every variant, in variant order. */
  function ScanAll<F>(frames: seq<Variant<F>>, scan: Image<F> -> seq<Symbol>): (r: seq<seq<Symbol>>)
    ensures |r| == |frames|
  {
    seq(|frames|, i requires 0 <= i < |frames| => scan(frames[i].image))
  }

  /** All symbols: variant order first, then decoder order within a variant. */
  function Flatten(batches: seq<seq<Symbol>>): seq<Symbol> {
    if batches == [] then [] else Flatten(batches[..|batches| - 1]) + batches[|batches| - 1]
  }

  /** What the insertion-ordered dict holds after seeing `s`: a symbol is
      appended exactly when its key is not yet present. */
  function Unique(s: seq<Symbol>, text: seq<bv8> -> string): (r: seq<Symbol>)
    ensures |r| <= |s|
  {
    if s == [] then []
    else
      var u := Unique(s[..|s| - 1], text);
      var b := s[|s| - 1];
      if Key(b, text) in KeySet(u, text) then u else u + [b]
  }

  lemma KeySetAppend(s: seq<Symbol>, b: Symbol, text: seq<bv8> -> string)
    ensures KeySet(s + [b], text) == KeySet(s, text) + {Key(b, text)}
  {
    var t := s + [b];
    forall key | key in KeySet(t, text) ensures key in KeySet(s, text) + {Key(b, text)} {
      var i :| 0 <= i < |t| && Key(t[i], text) == key;
      if i < |s| { assert t[i] == s[i]; }
    }
    forall key | key in KeySet(s, text) ensures key in KeySet(t, text) {
      var i :| 0 <= i < |s| && Key(s[i], text) == key;
      assert t[i] == s[i];
    }
    assert t[|s|] == b;
  }

  /** The position of the first symbol in `s` whose key is `key`. */
  function FirstIndex(s: seq<Symbol>, key: string, text: seq<bv8> -> string): (r: nat)
    requires key in KeySet(s, text)
    ensures r < |s| && Key(s[r], text) == key
    ensures forall j :: 0 <= j < r ==> Key(s[j], text) != key
  {
    var p := s[..|s| - 1];
    assert s == p + [s[|s| - 1]];
    KeySetAppend(p, s[|s| - 1], text);
    if key in KeySet(p, text) then FirstIndex(p, key, text) else |s| - 1
  }

  /** Every key of the input appears in the result and no other does. */
  lemma {:induction false} UniqueKeySet(s: seq<Symbol>, text: seq<bv8> -> string)
    ensures KeySet(Unique(s, text), text) == KeySet(s, text)
  {
    if s != [] {
      var p, b := s[..|s| - 1], s[|s| - 1];
      assert s == p + [b];
      UniqueKeySet(p, text);
      KeySetAppend(p, b, text);
      KeySetAppend(Unique(p, text), b, text);
    }
  }

  /** No two entries of the result share a key. */
  lemma {:induction false} UniqueDistinctKeys(s: seq<Symbol>, text: seq<bv8> -> string)
    ensures forall i, j :: 0 <= i < j < |Unique(s, text)| ==>
      Key(Unique(s, text)[i], text) != Key(Unique(s, text)[j], text)
  {
    if s != [] {
      var p, b := s[..|s| - 1], s[|s| - 1];
      UniqueDistinctKeys(p, text);
      var u := Unique(p, text);
      if Key(b, text) !in KeySet(u, text) {
        forall i | 0 <= i < |u| ensures Key(u[i], text) != Key(b, text) {
          assert Key(u[i], text) in KeySet(u, text);
        }
      }
    }
  }

  /** Extending a sequence does not move the first occurrence of a key it
      already holds. */
  lemma FirstIndexExtend(p: seq<Symbol>, b: Symbol, key: string, text: seq<bv8> -> string)
    requires key in KeySet(p, text)
    ensures key in KeySet(p + [b], text)
    ensures FirstIndex(p + [b], key, text) == FirstIndex(p, key, text)
  {
    KeySetAppend(p, b, text);
    var i, j := FirstIndex(p + [b], key, text), FirstIndex(p, key, text);
    assert (p + [b])[j] == p[j];
  }

  /** Each entry of `u` is the earliest symbol of `s` with its key. */
  ghost predicate KeptFirst(s: seq<Symbol>, u: seq<Symbol>, text: seq<bv8> -> string) {
    forall k :: 0 <= k < |u| ==>
      Key(u[k], text) in KeySet(s, text) && u[k] == s[FirstIndex(s, Key(u[k], text), text)]
  }

  /** The entries of `u` appear in the order their keys first appear in `s`. */
  ghost predicate InFirstAppearanceOrder(s: seq<Symbol>, u: seq<Symbol>, text: seq<bv8> -> string) {
    forall k1, k2 :: 0 <= k1 < k2 < |u| ==>
      Key(u[k1], text) in KeySet(s, text) && Key(u[k2], text) in KeySet(s, text) &&
      FirstIndex(s, Key(u[k1], text), text) < FirstIndex(s, Key(u[k2], text), text)
  }

  /** Each kept symbol is the earliest one with its key: variant order first,
      decoder order within a variant. */
  lemma {:induction false} UniqueKeepsFirst(s: seq<Symbol>, text: seq<bv8> -> string)
    ensures KeptFirst(s, Unique(s, text), text)
  {
    if s != [] {
      var p, b := s[..|s| - 1], s[|s| - 1];
      assert s == p + [b];
      var up := Unique(p, text);
      UniqueKeepsFirst(p, text);
      forall k | 0 <= k < |up|
        ensures Key(up[k], text) in KeySet(s, text) && up[k] == s[FirstIndex(s, Key(up[k], text), text)]
      {
        FirstIndexExtend(p, b, Key(up[k], text), text);
      }
      if Key(b, text) !in KeySet(up, text) {
        UniqueKeySet(p, text);
        KeySetAppend(p, b, text);
      }
    }
  }

  /** The result lists the keys in the order of their first appearance. */
  lemma {:induction false} UniqueKeepsOrder(s: seq<Symbol>, text: seq<bv8> -> string)
    ensures InFirstAppearanceOrder(s, Unique(s, text), text)
  {
    if s != [] {
      var p, b := s[..|s| - 1], s[|s| - 1];
      assert s == p + [b];
      var up := Unique(p, text);
      UniqueKeepsOrder(p, text);
      UniqueKeySet(p, text);
      forall k | 0 <= k < |up| ensures Key(up[k], text) in KeySet(p, text) {
        assert Key(up[k], text) in KeySet(up, text);
      }
      forall k | 0 <= k < |up| ensures FirstIndex(s, Key(up[k], text), text) == FirstIndex(p, Key(up[k], text), text) {
        FirstIndexExtend(p, b, Key(up[k], text), text);
      }
      if Key(b, text) !in KeySet(up, text) {
        KeySetAppend(p, b, text);
      }
    }
  }

  /** Every key produced from any variant has exactly one entry in the result. */
  lemma ExactlyOneEntry(s: seq<Symbol>, text: seq<bv8> -> string, key: string)
    requires key in KeySet(s, text)
    ensures exists k :: 0 <= k < |Unique(s, text)| && Key(Unique(s, text)[k], text) == key
    ensures forall k1, k2 | 0 <= k1 < |Unique(s, text)| && 0 <= k2 < |Unique(s, text)| &&
      Key(Unique(s, text)[k1], text) == key && Key(Unique(s, text)[k2], text) == key :: k1 == k2
  {
    UniqueKeySet(s, text);
    UniqueDistinctKeys(s, text);
  }

  /** The dict `table`, whose keys were inserted in the order `order`, has the
      values `kept`, in that order. */
  ghost predicate Holds(table: map<string, Symbol>, order: seq<string>, kept: seq<Symbol>, text: seq<bv8> -> string) {
    && |order| == |kept|
    && table.Keys == KeySet(kept, text)
    && forall k :: 0 <= k < |kept| ==> order[k] == Key(kept[k], text) && order[k] in table && table[order[k]] == kept[k]
  }

  /** Appending one symbol to the input appends it to `Unique` exactly when its
      key is new. */
  lemma UniqueSnoc(seen: seq<Symbol>, b: Symbol, text: seq<bv8> -> string)
    ensures Unique(seen + [b], text) ==
      if Key(b, text) in KeySet(Unique(seen, text), text) then Unique(seen, text) else Unique(seen, text) + [b]
  {
    assert (seen + [b])[..|seen|] == seen;
  }

  /** Inserting a new key into the dict appends its symbol to the values. */
  lemma HoldsInsert(table: map<string, Symbol>, order: seq<string>, u: seq<Symbol>, b: Symbol, text: seq<bv8> -> string)
    requires Holds(table, order, u, text) && Key(b, text) !in table
    ensures Holds(table[Key(b, text) := b], order + [Key(b, text)], u + [b], text)
  {
    var key := Key(b, text);
    var t, o, v := table[key := b], order + [key], u + [b];
    KeySetAppend(u, b, text);
    assert t.Keys == table.Keys + {key};
    forall k | 0 <= k < |v| ensures o[k] == Key(v[k], text) && o[k] in t && t[o[k]] == v[k] {
      if k < |u| {
        assert o[k] == order[k] && v[k] == u[k];
        assert order[k] in table && order[k] != key;
      }
    }
  }

  /** One insertion step of the loop: the dict keeps tracking `Unique`. */
  lemma HoldsStep(table: map<string, Symbol>, order: seq<string>, seen: seq<Symbol>, b: Symbol, text: seq<bv8> -> string)
    requires Holds(table, order, Unique(seen, text), text)
    ensures Key(b, text) in table ==> Holds(table, order, Unique(seen + [b], text), text)
    ensures Key(b, text) !in table ==>
      Holds(table[Key(b, text) := b], order + [Key(b, text)], Unique(seen + [b], text), text)
  {
    var u := Unique(seen, text);
    UniqueSnoc(seen, b, text);
    assert table.Keys == KeySet(u, text);
    if Key(b, text) !in table {
      HoldsInsert(table, order, u, b, text);
    }
  }

  lemma SliceStep(seen: seq<Symbol>, found: seq<Symbol>, j: nat)
    requires j < |found|
    ensures seen + found[..j + 1] == (seen + found[..j]) + [found[j]]
  {
    assert found[..j + 1] == found[..j] + [found[j]];
  }

  /** Reading the dict's values in insertion order yields `kept`, one more
      entry at a time. */
  lemma ValuesStep(table: map<string, Symbol>, order: seq<string>, kept: seq<Symbol>, k: nat, text: seq<bv8> -> string)
    requires Holds(table, order, kept, text) && k < |order|
    ensures order[k] in table && kept[..k] + [table[order[k]]] == kept[..k + 1]
  {
  }

  lemma FlattenStep(batches: seq<seq<Symbol>>, i: nat)
    requires i < |batches|
    ensures Flatten(batches[..i + 1]) == Flatten(batches[..i]) + batches[i]
  {
    assert batches[..i + 1][..i] == batches[..i];
  }

  /** Runs the decoder on each variant and fills the dict keyed by `Key`,
      keeping the first symbol per key; returns the dict's values in order. */
  method Detect<F>(frame: F, scan: Image<F> -> seq<Symbol>, text: seq<bv8> -> string)
    returns (barcodes: seq<Symbol>)
    ensures barcodes == Unique(Flatten(ScanAll(Variants(frame), scan)), text)
  {
    var frames := PreprocessFrame(frame);
    ghost var batches := ScanAll(frames, scan);
    var table: map<string, Symbol> := map[];
    var order: seq<string> := [];
    for i := 0 to |frames|
      invariant Holds(table, order, Unique(Flatten(batches[..i]), text), text)
    {
      var found := scan(frames[i].image);
      ghost var seen := Flatten(batches[..i]);
      assert seen + found[..0] == seen;
      for j := 0 to |found|
        invariant Holds(table, order, Unique(seen + found[..j], text), text)
      {
        var b := found[j];
        var key := b.symbolType + ":" + text(b.data);
        SliceStep(seen, found, j);
        HoldsStep(table, order, seen + found[..j], b, text);
        if key !in table {
          table := table[key := b];
          order := order + [key];
        }
      }
      assert found[..|found|] == found;
      FlattenStep(batches, i);
    }
    assert batches[..|frames|] == batches;
    barcodes := [];
    for k := 0 to |order|
      invariant barcodes == Unique(Flatten(batches), text)[..k]
    {
      ValuesStep(table, order, Unique(Flatten(batches), text), k, text);
      barcodes := barcodes + [table[order[k]]];
    }
  }

  /** Position of the first colon in `w`, or `|w|` when there is none. */
  function FirstColon(w: string): (r: nat)
    ensures r <= |w|
    ensures forall i :: 0 <= i < r ==> w[i] != ':'
    ensures r < |w| ==> w[r] == ':'
  {
    if w == [] then 0 else if w[0] == ':' then 0 else 1 + FirstColon(w[1..])
  }

  /** In a key whose type has no colon, the first colon ends the type. */
  lemma {:induction false} FirstColonOfKey(t: string, x: string)
    requires ':' !in t
    ensures FirstColon(t + ":" + x) == |t|
  {
    if t != [] {
      assert (t + ":" + x)[1..] == t[1..] + ":" + x;
      FirstColonOfKey(t[1..], x);
    }
  }

  /** For a type with no colon, the type and the text read back from the key:
      the first colon ends the type and the text follows it. */
  lemma KeyReadBack(b: Symbol, text: seq<bv8> -> string)
    requires ':' !in b.symbolType
    ensures FirstColon(Key(b, text)) == |b.symbolType| < |Key(b, text)|
    ensures Key(b, text)[..FirstColon(Key(b, text))] == b.symbolType
    ensures Key(b, text)[FirstColon(Key(b, text)) + 1..] == text(b.data)
  {
    FirstColonOfKey(b.symbolType, text(b.data));
  }

  /** Keys of symbols whose types contain no colon identify the (type, text)
      pair. Without that condition two different pairs can share a key. */
  lemma KeyIdentifiesPair(t1: string, x1: string, t2: string, x2: string)
    requires ':' !in t1 && ':' !in t2
    ensures t1 + ":" + x1 == t2 + ":" + x2 <==> t1 == t2 && x1 == x2
  {
    var w := t1 + ":" + x1;
    if w == t2 + ":" + x2 {
      FirstColonOfKey(t1, x1);
      FirstColonOfKey(t2, x2);
      assert t1 == w[..|t1|] == t2;
      assert x1 == w[|t1| + 1..] == x2;
    }
  }

  /** A colon inside a symbol type makes two different pairs share a key, and
      the dict then keeps only the first of the two symbols. */
  lemma KeyCollision(text: seq<bv8> -> string, r0: Rect, r1: Rect)
    requires text([1]) == "B" && text([2]) == ":B"
    ensures Unique([Symbol("A:", [1], r0), Symbol("A", [2], r1)], text) == [Symbol("A:", [1], r0)]
  {
    var s0, s1 := Symbol("A:", [1], r0), Symbol("A", [2], r1);
    assert Key(s0, text) == Key(s1, text);
    assert [s0, s1][..1] == [s0];
    assert Unique([s0], text) == [s0] by {
      assert [s0][..0] == [];
    }
    assert Key(s1, text) in KeySet([s0], text);
  }
}
