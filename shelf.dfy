/** `EncryptShelf` (encript_shelve.py): a shelf whose values are pickled,
    padded and encrypted with an AES cipher derived from a seed, with an
    optional write-back cache of plain values, and the re-keying loop
    `update_aes`. Keys are kept as strings (the shelf encodes them with its
    `keyencoding` on the way to the underlying dictionary). */
module Shelf {
  import opened Base

  /** Pickle, pad and encrypt under a seed; and the inverse, which gives
      `None` where unpadding or unpickling fails. The AES cipher is rebuilt
      from the seed on every use, so `seal` is a function of the seed. */
  datatype SeedCodec<!S, !V> = SeedCodec(seal: (S, V) -> Bytes, open: (S, Bytes) -> Option<V>)

  /** Under `seed`, opening what was sealed gives the value back. */
  ghost predicate RoundTrips<S(!new), V(!new)>(codec: SeedCodec<S, V>, seed: S) {
    forall v :: codec.open(seed, codec.seal(seed, v)) == Some(v)
  }

  /** What `__getitem__` returns: the cached value if any, else the stored
      bytes opened under `seed`. */
  function Value<S, V>(codec: SeedCodec<S, V>, seed: S, dict: map<string, Bytes>, cache: map<string, V>, key: string): Result<V, Error> {
    if key in cache then Ok(cache[key])
    else if key !in dict then Err(NotFound)
    else match codec.open(seed, dict[key])
      case None => Err(Undecodable)
      case Some(v) => Ok(v)
  }

  /** The cache after `__getitem__`: a decoded value is remembered with write-back. */
  function CacheAfterRead<S, V>(codec: SeedCodec<S, V>, seed: S, writeback: bool, dict: map<string, Bytes>,
                                cache: map<string, V>, key: string): map<string, V>
  {
    var r := Value(codec, seed, dict, cache, key);
    if writeback && key !in cache && r.Ok? then cache[key := r.value] else cache
  }

  /** Every stored key can be read under `seed`. */
  ghost predicate Readable<S, V>(codec: SeedCodec<S, V>, seed: S, dict: map<string, Bytes>, cache: map<string, V>) {
    forall k :: k in dict ==> Value(codec, seed, dict, cache, k).Ok?
  }

  /** The dictionary once the keys in `done` have been re-encrypted under `newSeed`. */
  function DictAfter<S, V>(codec: SeedCodec<S, V>, oldSeed: S, newSeed: S, dict: map<string, Bytes>,
                           cache: map<string, V>, done: set<string>): map<string, Bytes>
    requires forall k :: k in done ==> Value(codec, oldSeed, dict, cache, k).Ok?
  {
    map k | k in dict :: if k in done then codec.seal(newSeed, Value(codec, oldSeed, dict, cache, k).value) else dict[k]
  }

  /** The cache once the keys in `done` have been re-encrypted: with
      write-back, each holds the value that was re-encrypted. */
  function CacheAfter<S, V>(codec: SeedCodec<S, V>, oldSeed: S, writeback: bool, dict: map<string, Bytes>,
                            cache: map<string, V>, done: set<string>): map<string, V>
    requires forall k :: k in done ==> Value(codec, oldSeed, dict, cache, k).Ok?
  {
    if writeback then map k | k in cache.Keys + done :: if k in done then Value(codec, oldSeed, dict, cache, k).value else cache[k]
    else cache
  }

  /** A key not yet re-encrypted reads as it did before the loop started. */
  lemma ReadUnprocessed<S, V>(codec: SeedCodec<S, V>, oldSeed: S, newSeed: S, writeback: bool,
                              dict: map<string, Bytes>, cache: map<string, V>, done: set<string>, key: string)
    requires forall k :: k in done ==> Value(codec, oldSeed, dict, cache, k).Ok?
    requires key !in done
    ensures Value(codec, oldSeed, DictAfter(codec, oldSeed, newSeed, dict, cache, done),
                  CacheAfter(codec, oldSeed, writeback, dict, cache, done), key)
            == Value(codec, oldSeed, dict, cache, key)
    ensures key in CacheAfter(codec, oldSeed, writeback, dict, cache, done) <==> key in cache
  {
  }

  /** Re-encrypting one more key updates that key of the dictionary. */
  lemma DictAfterStep<S, V>(codec: SeedCodec<S, V>, oldSeed: S, newSeed: S,
                            dict: map<string, Bytes>, cache: map<string, V>, done: set<string>, key: string)
    requires forall k :: k in done ==> Value(codec, oldSeed, dict, cache, k).Ok?
    requires key in dict && Value(codec, oldSeed, dict, cache, key).Ok?
    ensures forall k :: k in done + {key} ==> Value(codec, oldSeed, dict, cache, k).Ok?
    ensures DictAfter(codec, oldSeed, newSeed, dict, cache, done + {key})
            == DictAfter(codec, oldSeed, newSeed, dict, cache, done)[key := codec.seal(newSeed, Value(codec, oldSeed, dict, cache, key).value)]
  {
  }

  /** Re-encrypting one more key caches its value with write-back. */
  lemma CacheAfterStep<S, V>(codec: SeedCodec<S, V>, oldSeed: S, writeback: bool,
                             dict: map<string, Bytes>, cache: map<string, V>, done: set<string>, key: string)
    requires forall k :: k in done ==> Value(codec, oldSeed, dict, cache, k).Ok?
    requires key in dict && Value(codec, oldSeed, dict, cache, key).Ok?
    ensures forall k :: k in done + {key} ==> Value(codec, oldSeed, dict, cache, k).Ok?
    ensures CacheAfter(codec, oldSeed, writeback, dict, cache, done + {key})
            == if writeback then CacheAfter(codec, oldSeed, writeback, dict, cache, done)[key := Value(codec, oldSeed, dict, cache, key).value]
               else CacheAfter(codec, oldSeed, writeback, dict, cache, done)
  {
  }

  /** Part way through, every entry is either untouched or re-encrypted. */
  lemma DictAfterPartial<S, V>(codec: SeedCodec<S, V>, oldSeed: S, newSeed: S,
                               dict: map<string, Bytes>, cache: map<string, V>, done: set<string>)
    requires forall k :: k in done ==> Value(codec, oldSeed, dict, cache, k).Ok?
    ensures var d := DictAfter(codec, oldSeed, newSeed, dict, cache, done);
      && d.Keys == dict.Keys
      && forall k :: k in d ==>
           d[k] == dict[k]
           || (Value(codec, oldSeed, dict, cache, k).Ok?
               && d[k] == codec.seal(newSeed, Value(codec, oldSeed, dict, cache, k).value))
  {
  }

  /** Part way through, every cached value is the value its key read before
      the loop, and only write-back adds to the cache. */
  lemma CacheAfterPartial<S, V>(codec: SeedCodec<S, V>, oldSeed: S, writeback: bool,
                                dict: map<string, Bytes>, cache: map<string, V>, done: set<string>)
    requires forall k :: k in done ==> Value(codec, oldSeed, dict, cache, k).Ok?
    requires done <= dict.Keys
    ensures var c := CacheAfter(codec, oldSeed, writeback, dict, cache, done);
      && (!writeback ==> c == cache)
      && c.Keys <= cache.Keys + dict.Keys
      && forall k :: k in c ==> Value(codec, oldSeed, dict, cache, k) == Ok(c[k])
  {
  }

  /** `update_aes` reads each entry under the old seed and writes it back
      under the new one; reading any entry under the new seed afterwards
      gives the value it had before, and no key is added or lost. */
  lemma RekeyPreservesValues<S(!new), V(!new)>(codec: SeedCodec<S, V>, oldSeed: S, newSeed: S, writeback: bool,
                                               dict: map<string, Bytes>, cache: map<string, V>, key: string)
    requires RoundTrips(codec, newSeed) && Readable(codec, oldSeed, dict, cache)
    ensures DictAfter(codec, oldSeed, newSeed, dict, cache, dict.Keys).Keys == dict.Keys
    ensures key in dict ==>
              Value(codec, newSeed, DictAfter(codec, oldSeed, newSeed, dict, cache, dict.Keys),
                    CacheAfter(codec, oldSeed, writeback, dict, cache, dict.Keys), key)
              == Value(codec, oldSeed, dict, cache, key)
  {
    if key in dict {
      var v := Value(codec, oldSeed, dict, cache, key).value;
      assert codec.open(newSeed, codec.seal(newSeed, v)) == Some(v);
    }
  }

  /** Writing then reading a key under one seed gives the value written. */
  lemma SetThenGet<S(!new), V(!new)>(codec: SeedCodec<S, V>, seed: S, writeback: bool,
                                     dict: map<string, Bytes>, cache: map<string, V>, key: string, v: V)
    requires RoundTrips(codec, seed)
    requires !writeback ==> cache == map[]
    ensures Value(codec, seed, dict[key := codec.seal(seed, v)], if writeback then cache[key := v] else cache, key) == Ok(v)
  {
    assert codec.open(seed, codec.seal(seed, v)) == Some(v);
  }

  /** A value sealed under one seed and opened under another that rejects it
      is reported as undecodable, unless the cache still holds it. */
  lemma WrongSeedFails<S, V>(codec: SeedCodec<S, V>, seed: S, other: S, dict: map<string, Bytes>, key: string, v: V)
    requires codec.open(other, codec.seal(seed, v)).None?
    ensures Value(codec, other, dict[key := codec.seal(seed, v)], map[], key) == Err(Undecodable)
  {
  }

  class EncryptShelf<S(==), V> {
    /** The underlying dictionary: key to encrypted bytes. */
    var dict: map<string, Bytes>
    /** Plain values, filled only with write-back. */
    var cache: map<string, V>
    const writeback: bool
    var seed: S
    const codec: SeedCodec<S, V>

    ghost predicate Valid()
      reads this
    {
      && cache.Keys <= dict.Keys
      && (!writeback ==> cache == map[])
    }

    /** `EncryptShelf(*ar, seed=seed, writeback=writeback)`: without a
        dictionary, a fresh empty one. */
    constructor(dict: Option<map<string, Bytes>>, writeback: bool, seed: S, codec: SeedCodec<S, V>)
      ensures this.dict == (if dict.None? then map[] else dict.value) && cache == map[]
      ensures this.writeback == writeback && this.seed == seed && this.codec == codec
      ensures Valid()
    {
      this.dict := if dict.None? then map[] else dict.value;
      cache := map[];
      this.writeback := writeback;
      this.seed := seed;
      this.codec := codec;
    }

    /** `__getitem__`: the cache first, then the encrypted dictionary; the
        dictionary is never changed. */
    method GetItem(key: string) returns (r: Result<V, Error>)
      modifies this`cache
      ensures r == Value(codec, seed, dict, old(cache), key)
      ensures cache == CacheAfterRead(codec, seed, writeback, dict, old(cache), key)
      ensures old(Valid()) ==> Valid()
    {
      if key in cache {
        return Ok(cache[key]);
      }
      if key !in dict {
        return Err(NotFound);
      }
      var value := codec.open(seed, dict[key]);
      if value.None? {
        return Err(Undecodable);
      }
      if writeback {
        cache := cache[key := value.value];
      }
      return Ok(value.value);
    }

    /** `__setitem__`: with write-back the plain value is cached too. */
    method SetItem(key: string, value: V)
      modifies this`dict, this`cache
      ensures dict == old(dict)[key := codec.seal(seed, value)]
      ensures cache == if writeback then old(cache)[key := value] else old(cache)
      ensures old(Valid()) ==> Valid()
    {
      if writeback {
        cache := cache[key := value];
      }
      dict := dict[key := codec.seal(seed, value)];
    }

    /** `update_aes(new_seed)`: re-encrypts every entry under `newSeed`, one
        key at a time, in the dictionary's order. An entry that cannot be
        read under the old seed stops the loop with the seed unchanged and the
        entries handled so far already re-encrypted. */
    method UpdateAes(newSeed: S) returns (r: Result<(), Error>)
      modifies this`dict, this`cache, this`seed
      ensures newSeed == old(seed) ==> r == Ok(()) && dict == old(dict) && cache == old(cache) && seed == old(seed)
      ensures newSeed != old(seed) ==> (r.Ok? <==> Readable(codec, old(seed), old(dict), old(cache)))
      ensures newSeed != old(seed) && r.Ok? ==>
                && seed == newSeed
                && dict == DictAfter(codec, old(seed), newSeed, old(dict), old(cache), old(dict).Keys)
                && cache == CacheAfter(codec, old(seed), writeback, old(dict), old(cache), old(dict).Keys)
      ensures r.Err? ==>
                && seed == old(seed)
                && dict.Keys == old(dict).Keys
                && forall k :: k in dict ==>
                     dict[k] == old(dict)[k]
                     || (Value(codec, old(seed), old(dict), old(cache), k).Ok?
                         && dict[k] == codec.seal(newSeed, Value(codec, old(seed), old(dict), old(cache), k).value))
      ensures !writeback ==> cache == old(cache)
      ensures forall k :: k in cache ==> Value(codec, old(seed), old(dict), old(cache), k) == Ok(cache[k])
      ensures old(Valid()) ==> Valid()
    {
      if newSeed == seed {
        return Ok(());
      }
      var oldSeed := seed;
      ghost var dict0, cache0 := dict, cache;
      var remaining := dict.Keys;
      while remaining != {}
        invariant seed == oldSeed
        invariant remaining <= dict0.Keys
        invariant forall k :: k in dict0.Keys - remaining ==> Value(codec, oldSeed, dict0, cache0, k).Ok?
        invariant dict == DictAfter(codec, oldSeed, newSeed, dict0, cache0, dict0.Keys - remaining)
        invariant cache == CacheAfter(codec, oldSeed, writeback, dict0, cache0, dict0.Keys - remaining)
        decreases remaining
      {
        var key :| key in remaining;
        ghost var done := dict0.Keys - remaining;
        ReadUnprocessed(codec, oldSeed, newSeed, writeback, dict0, cache0, done, key);
        var value := GetItem(key);
        if value.Err? {
          DictAfterPartial(codec, oldSeed, newSeed, dict0, cache0, done);
          CacheAfterPartial(codec, oldSeed, writeback, dict0, cache0, done);
          return Err(value.error);
        }
        seed := newSeed;
        SetItem(key, value.value);
        seed := oldSeed;
        DictAfterStep(codec, oldSeed, newSeed, dict0, cache0, done, key);
        CacheAfterStep(codec, oldSeed, writeback, dict0, cache0, done, key);
        assert dict0.Keys - (remaining - {key}) == done + {key};
        remaining := remaining - {key};
      }
      assert dict0.Keys - remaining == dict0.Keys;
      CacheAfterPartial(codec, oldSeed, writeback, dict0, cache0, dict0.Keys);
      seed := newSeed;
      return Ok(());
    }
  }
}
