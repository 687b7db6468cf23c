/** The memoizing decorators: `Cache.__call__` of caching.py, which caches in
    a `DictRepository`, and `Cache.__call__` of cache.py, which caches in a
    storage object held by the class. A decorated function is modelled as a
    pure function of the renders of its arguments; Python's `None` is `None`
    of `Option`, so a cached result has type `Option<W>`. */
module Memo {
  import opened Base
  import Codec
  import Storage
  import Repositories

  // ---------------------------------------------------------------------
  // caching.py
  // ---------------------------------------------------------------------

  /** `func(*args, **kwargs)`: Python refuses a call with more positional
      arguments than parameters with `TypeError` before the body runs;
      otherwise the body computes its result. */
  function Invoke<W>(func: (seq<string>, map<string, string>) -> Option<W>, sig: Codec.Signature,
                     args: seq<string>, kwargs: map<string, string>): (r: Result<Option<W>, Error>)
    ensures r.Err? <==> |args| > |sig.names|
    ensures r.Err? ==> r.error == TypeError
    ensures r.Ok? ==> r.value == func(args, kwargs)
  {
    if |args| > |sig.names| then Err(TypeError) else Ok(func(args, kwargs))
  }

  /** The corrected decorator never keys a call that the function itself
      refuses: whenever calling the function raises `TypeError`, so does
      computing the corrected key, before the repository is consulted. */
  lemma RefusedCallsAreNotKeyed<W>(f: Codec.Func, defaults: Codec.Defaults,
                                   func: (seq<string>, map<string, string>) -> Option<W>,
                                   args: seq<string>, kwargs: map<string, string>)
    requires Codec.WellFormed(f.sig)
    ensures Invoke(func, f.sig, args, kwargs).Err? ==> Codec.BoundKey(f, defaults, args, kwargs) == Err(TypeError)
    ensures Codec.BoundKey(f, defaults, args, kwargs).Ok? ==> Invoke(func, f.sig, args, kwargs) == Ok(func(args, kwargs))
  {
    if |args| > |f.sig.names| {
      Codec.SurplusCallRefused(f, defaults, args, kwargs);
    }
  }

  /** Calling the function and storing its result with `set` if `validate`
      accepts it; an exception from the function, or from `set`, propagates. */
  function Compute<W>(cfg: Storage.Config<Option<W>>, validate: Option<W> -> bool, s: Storage.Store,
                      key: string, computed: Result<Option<W>, Error>, nonce: Bytes, now: int)
    : (Result<Option<W>, Error>, bool, Storage.Store)
  {
    match computed
    case Err(e) => (Err(e), true, s)
    case Ok(v) =>
      if !validate(v) then (Ok(v), true, s)
      else
        var (w, t) := Storage.Set(cfg, s, key, v, nonce, now);
        (if w.Err? then Err(w.error) else Ok(v), true, t)
  }

  /** One call of the decorated function once its key is known: the result,
      whether the function ran, and the repository's store afterwards. `d` is
      the default installed for the lookup. */
  function CachingCall<W>(cfg: Storage.Config<Option<W>>, validate: Option<W> -> bool, d: Storage.DefaultFn<Option<W>>,
                          s: Storage.Store, key: string, computed: Result<Option<W>, Error>, ignoreCache: bool,
                          nonce: Bytes, now: int)
    : (Result<Option<W>, Error>, bool, Storage.Store)
  {
    if ignoreCache then Compute(cfg, validate, s, key, computed, nonce, now)
    else
      var (found, s1) := Storage.Get(cfg, d, s, key, now);
      if found.Err? then (Err(found.error), false, s1)
      else if found.value.Some? && found.value.value.Some? then (Ok(found.value.value), false, s1)
      else Compute(cfg, validate, s1, key, computed, nonce, now)
  }

  /** A live entry holding a value other than `None` is returned without
      calling the function, and without consulting `validate`. */
  lemma CachingHit<W>(cfg: Storage.Config<Option<W>>, validate: Option<W> -> bool, d: Storage.DefaultFn<Option<W>>,
                      s: Storage.Store, key: string, computed: Result<Option<W>, Error>, nonce: Bytes, now: int, w: W)
    requires Storage.Live(s, key, cfg.ttl, now) && Storage.Unseal(cfg, s.data[key]) == Ok(Some(w))
    ensures var (r, called, t) := CachingCall(cfg, validate, d, s, key, computed, false, nonce, now);
      r == Ok(Some(w)) && !called && t == Storage.Lookup(s, key, cfg.ttl, now).1
  {
    Storage.GetFallsBack(cfg, d, s, key, now);
  }

  /** With `ignore_cache`, or when no live entry exists, the function is
      called once and its result returned; it is stored, and reads back, only
      if `validate` accepts it. A rejected result leaves the store as the
      lookup left it: caching.py does not delete the old entry. */
  lemma CachingMiss<W(!new)>(cfg: Storage.Config<Option<W>>, validate: Option<W> -> bool, s: Storage.Store,
                             key: string, computed: Option<W>, ignoreCache: bool, nonce: Bytes, now: int)
    requires Storage.Sound(cfg)
    requires ignoreCache || !Storage.Live(s, key, cfg.ttl, now)
    ensures var (r, called, t) := CachingCall(cfg, validate, Storage.NoDefault, s, key, Ok(computed), ignoreCache, nonce, now);
      && r == Ok(computed) && called
      && (validate(computed) ==> Storage.GetItem(cfg, t, key, now).0 == Ok(computed))
      && (!validate(computed) ==> t.data == if ignoreCache then s.data else s.data - {key})
  {
    var s1 := if ignoreCache then s else Storage.Get(cfg, Storage.NoDefault, s, key, now).1;
    if !ignoreCache {
      Storage.GetFallsBack(cfg, Storage.NoDefault, s, key, now);
      Storage.LookupLive(s, key, cfg.ttl, now);
    }
    Storage.SetThenGetItem(cfg, s1, key, computed, nonce, now);
  }

  /** A live entry holding `None` (a stored JSON `null`) is no hit either:
      `result is not None` fails, so the function runs and its result is
      returned; a result `validate` accepts replaces the entry, and a rejected
      one leaves the stored bytes as they were. */
  lemma CachingNoneRecomputes<W(!new)>(cfg: Storage.Config<Option<W>>, validate: Option<W> -> bool, s: Storage.Store,
                                       key: string, computed: Option<W>, nonce: Bytes, now: int)
    requires Storage.Sound(cfg)
    requires Storage.Live(s, key, cfg.ttl, now) && Storage.Unseal(cfg, s.data[key]) == Ok(None)
    ensures var (r, called, t) := CachingCall(cfg, validate, Storage.NoDefault, s, key, Ok(computed), false, nonce, now);
      && r == Ok(computed) && called
      && (validate(computed) ==> Storage.GetItem(cfg, t, key, now).0 == Ok(computed))
      && (!validate(computed) ==> t.data == s.data)
  {
    var s1 := Storage.Get(cfg, Storage.NoDefault, s, key, now).1;
    Storage.GetFallsBack(cfg, Storage.NoDefault, s, key, now);
    Storage.LookupLive(s, key, cfg.ttl, now);
    Storage.SetThenGetItem(cfg, s1, key, computed, nonce, now);
  }

  /** As written, the lookup installs a default that takes no argument, so a
      missing or expired entry makes `get` raise `TypeError` and the function
      is never called. On an encrypted repository whose `cipher` is `None`
      the read raises `AttributeError` first, on every key, before the store
      is touched. */
  lemma CachingMissRaises<W>(cfg: Storage.Config<Option<W>>, validate: Option<W> -> bool, s: Storage.Store,
                             key: string, computed: Result<Option<W>, Error>, nonce: Bytes, now: int)
    requires !Storage.Live(s, key, cfg.ttl, now) || !Storage.CipherReachable(cfg)
    ensures var (r, called, t) := CachingCall(cfg, validate, Storage.Nullary, s, key, computed, false, nonce, now);
      && !called
      && r == (if Storage.CipherReachable(cfg) then Err(TypeError) else Err(AttributeError))
      && t == (if Storage.CipherReachable(cfg) then Storage.Lookup(s, key, cfg.ttl, now).1 else s)
  {
    Storage.GetFallsBack(cfg, Storage.Nullary, s, key, now);
  }

  /** A result that `validate` accepts but `set` cannot store (an encrypted
      repository whose `cipher` is `None`) is not returned: the exception
      propagates out of the decorated call, after `set` has deleted the key. */
  lemma CachingSetFailureRaises<W>(cfg: Storage.Config<Option<W>>, validate: Option<W> -> bool, d: Storage.DefaultFn<Option<W>>,
                                   s: Storage.Store, key: string, computed: Option<W>, nonce: Bytes, now: int)
    requires cfg.encrypted && cfg.cipher.None? && validate(computed)
    ensures var (r, called, t) := CachingCall(cfg, validate, d, s, key, Ok(computed), true, nonce, now);
      r == Err(AttributeError) && called && t == Storage.Delete(s, key)
  {
    Storage.MissingCipherRaises(cfg, d, s, key, computed, nonce, now);
  }

  /** Memoization: after a successful call whose result, if computed, is
      accepted and not `None`, the same key looked up again within
      `expire_seconds` returns the same result without calling the function. */
  lemma CachingRemembers<W(!new)>(cfg: Storage.Config<Option<W>>, validate: Option<W> -> bool, s: Storage.Store,
                                  key: string, computed: Option<W>, computed2: Result<Option<W>, Error>, ignoreCache: bool,
                                  nonce: Bytes, nonce2: Bytes, now: int, later: int)
    requires Storage.Sound(cfg) && computed.Some? && validate(computed)
    requires now <= later && (cfg.ttl > 0 ==> later <= now + cfg.ttl)
    requires CachingCall(cfg, validate, Storage.NoDefault, s, key, Ok(computed), ignoreCache, nonce, now).0.Ok?
    ensures var (r1, _, t1) := CachingCall(cfg, validate, Storage.NoDefault, s, key, Ok(computed), ignoreCache, nonce, now);
            var (r2, called2, _) := CachingCall(cfg, validate, Storage.NoDefault, t1, key, computed2, false, nonce2, later);
            r2 == r1 && !called2
  {
    var (r1, called1, t1) := CachingCall(cfg, validate, Storage.NoDefault, s, key, Ok(computed), ignoreCache, nonce, now);
    if called1 {
      var s1 := if ignoreCache then s else Storage.Get(cfg, Storage.NoDefault, s, key, now).1;
      assert t1 == Storage.Set(cfg, s1, key, computed, nonce, now).1;
      Storage.SetReadableUntilDeadline(cfg, s1, key, computed, nonce, now, later);
      CachingHit(cfg, validate, Storage.NoDefault, t1, key, computed2, nonce2, later, computed.value);
    } else {
      Storage.GetFallsBack(cfg, Storage.NoDefault, s, key, now);
      Storage.LookupLive(s, key, cfg.ttl, now);
      assert Storage.Live(t1, key, cfg.ttl, later) && t1.data[key] == s.data[key];
      CachingHit(cfg, validate, Storage.NoDefault, t1, key, computed2, nonce2, later, r1.value.value);
    }
  }

  /** The decorator test: a call, then an equivalent call binding the same
      values differently, runs the function at most once. */
  lemma EquivalentCallHits<W(!new)>(cfg: Storage.Config<Option<W>>, validate: Option<W> -> bool, s: Storage.Store,
                                    f: Codec.Func, args1: seq<string>, kwargs1: map<string, string>,
                                    args2: seq<string>, kwargs2: map<string, string>,
                                    computed: Option<W>, nonce: Bytes, now: int)
    requires Codec.WellFormed(f.sig) && Codec.ProperCall(f.sig, args1, kwargs1) && Codec.ProperCall(f.sig, args2, kwargs2)
    requires forall j :: 0 <= j < |f.sig.names| ==>
               Codec.BoundValue(f.sig, args1, kwargs1, j) == Codec.BoundValue(f.sig, args2, kwargs2, j)
    requires Storage.Sound(cfg) && computed.Some? && validate(computed)
    requires CachingCall(cfg, validate, Storage.NoDefault, s, Codec.CallKey(f, args1, kwargs1), Ok(computed), false, nonce, now).0.Ok?
    ensures var (r1, _, t1) := CachingCall(cfg, validate, Storage.NoDefault, s, Codec.CallKey(f, args1, kwargs1), Ok(computed), false, nonce, now);
            var (r2, called2, _) := CachingCall(cfg, validate, Storage.NoDefault, t1, Codec.CallKey(f, args2, kwargs2), Ok(computed), false, nonce, now);
            r2 == r1 && !called2
  {
    Codec.EquivalentCallsSameKey(f, args1, kwargs1, args2, kwargs2);
    CachingRemembers(cfg, validate, s, Codec.CallKey(f, args1, kwargs1), computed, Ok(computed), false, nonce, nonce, now, now);
  }

  /** caching.py's `Cache`. */
  class Cache<W> {
    const validate: Option<W> -> bool
    const repository: Repositories.DictRepository<Option<W>>

    /** `Cache(repository, result_validator)`: the validator defaults to
        accepting everything and the repository to a fresh `DictRepository()`. */
    constructor(repository: Option<Repositories.DictRepository<Option<W>>>, validator: Option<Option<W> -> bool>,
                json: Storage.Serializer<Option<W>>)
      ensures validator.Some? ==> validate == validator.value
      ensures validator.None? ==> forall v :: validate(v)
      ensures repository.Some? ==> this.repository == repository.value
      ensures repository.None? ==> fresh(this.repository) && this.repository.State() == Storage.Store(map[], map[])
      ensures repository.None? ==> this.repository.Config() == Storage.Config(0, json, false, None)
      ensures repository.None? ==> this.repository.default == Storage.NoDefault
    {
      if validator.Some? {
        validate := validator.value;
      } else {
        validate := _ => true;
      }
      if repository.None? {
        var unused := (p: string) => Storage.Cipher((b: Bytes, n: Bytes) => b, (b: Bytes) => Some(b));
        this.repository := new Repositories.DictRepository(map[], 0, "", unused, None, json);
      } else {
        this.repository := repository.value;
      }
    }

    /** The decorated function as written: the lookup installs `lambda: None`,
        which `get` calls with the key, and restores the old default only when
        `get` returns. `func` stands for the decorated function's body; a call
        it cannot bind raises `TypeError` when the function is called. */
    method CallAsWritten(f: Codec.Func, func: (seq<string>, map<string, string>) -> Option<W>,
                         args: seq<string>, kwargs: map<string, string>, ignoreCache: bool, nonce: Bytes, now: int)
      returns (r: Result<Option<W>, Error>, called: bool)
      requires Codec.WellFormed(f.sig)
      modifies repository`storage, repository`expireStorage, repository`default
      ensures (r, called, repository.State())
              == CachingCall(repository.Config(), validate, Storage.Nullary, old(repository.State()),
                             Codec.CallKey(f, args, kwargs), Invoke(func, f.sig, args, kwargs), ignoreCache, nonce, now)
      ensures repository.default == if r.Err? && !called then Storage.Nullary else old(repository.default)
    {
      var key := Codec.KeyFromFunctionCall(f, args, kwargs);
      if !ignoreCache {
        var oldDefault := repository.default;
        repository.default := Storage.Nullary;
        var result := repository.Get(key, now);
        if result.Err? {
          return Err(result.error), false;
        }
        repository.default := oldDefault;
        if result.value.Some? && result.value.value.Some? {
          return Ok(result.value.value), false;
        }
      }
      var value := Invoke(func, f.sig, args, kwargs);
      if value.Err? {
        return Err(value.error), true;
      }
      if validate(value.value) {
        var stored := repository.Set(key, value.value, nonce, now);
        if stored.Err? {
          return Err(stored.error), true;
        }
      }
      return Ok(value.value), true;
    }

    /** The decorated function as evidently intended: the lookup installs a
        one-argument default returning `None`, and the key is that of the call
        bound as Python binds it, with `defaults` (the function's parameter
        defaults) applied; a call Python cannot bind raises `TypeError` before
        the repository is touched. */
    method Call(f: Codec.Func, defaults: Codec.Defaults, func: (seq<string>, map<string, string>) -> Option<W>,
                args: seq<string>, kwargs: map<string, string>, ignoreCache: bool, nonce: Bytes, now: int)
      returns (r: Result<Option<W>, Error>, called: bool)
      requires Codec.WellFormed(f.sig)
      modifies repository`storage, repository`expireStorage, repository`default
      ensures Codec.BoundKey(f, defaults, args, kwargs).Err? ==>
                r == Err(TypeError) && !called && repository.State() == old(repository.State())
      ensures Codec.BoundKey(f, defaults, args, kwargs).Ok? ==>
                (r, called, repository.State())
                == CachingCall(repository.Config(), validate, Storage.NoDefault, old(repository.State()),
                               Codec.BoundKey(f, defaults, args, kwargs).value, Ok(func(args, kwargs)),
                               ignoreCache, nonce, now)
      ensures repository.default
              == if r.Err? && !called && Codec.BoundKey(f, defaults, args, kwargs).Ok? then Storage.NoDefault
                 else old(repository.default)
    {
      var key := Codec.BoundKeyFromFunctionCall(f, defaults, args, kwargs);
      if key.Err? {
        return Err(TypeError), false;
      }
      if !ignoreCache {
        var oldDefault := repository.default;
        repository.default := Storage.NoDefault;
        var result := repository.Get(key.value, now);
        if result.Err? {
          return Err(result.error), false;
        }
        repository.default := oldDefault;
        if result.value.Some? && result.value.value.Some? {
          return Ok(result.value.value), false;
        }
      }
      var value := func(args, kwargs);
      if validate(value) {
        var stored := repository.Set(key.value, value, nonce, now);
        if stored.Err? {
          return Err(stored.error), true;
        }
      }
      return Ok(value), true;
    }
  }

  // ---------------------------------------------------------------------
  // cache.py
  // ---------------------------------------------------------------------

  /** One call of cache.py's decorated function once its key is known, over
      the storage's entries: the result, whether the function ran, and the
      entries afterwards. */
  function LegacyCall<W>(validate: Option<W> -> bool, m: map<string, Option<W>>, key: string,
                         computed: Result<Option<W>, Error>, ignoreCache: bool)
    : (Result<Option<W>, Error>, bool, map<string, Option<W>>)
  {
    if !ignoreCache && key in m && m[key].Some? && validate(m[key]) then (Ok(m[key]), false, m)
    else
      var m1 := m - {key};
      match computed
      case Err(e) => (Err(e), true, m1)
      case Ok(v) => (Ok(v), true, if validate(v) then m1[key := v] else m1)
  }

  /** Every stored result passes the validator. */
  predicate AllValid<W>(validate: Option<W> -> bool, m: map<string, Option<W>>) {
    forall k :: k in m ==> validate(m[k])
  }

  /** The function is skipped only for a stored result other than `None` that
      passes `validate`, and then that result is returned unchanged. */
  lemma LegacyHitIsValid<W>(validate: Option<W> -> bool, m: map<string, Option<W>>, key: string,
                            computed: Result<Option<W>, Error>, ignoreCache: bool)
    ensures var (r, called, t) := LegacyCall(validate, m, key, computed, ignoreCache);
      && (!called <==> !ignoreCache && key in m && m[key].Some? && validate(m[key]))
      && (!called ==> r == Ok(m[key]) && m[key].Some? && validate(m[key]) && t == m)
  {
  }

  /** Otherwise the old entry is deleted before the function runs, its result
      (or its exception) is returned, and the result is stored only if
      `validate` accepts it; no other entry changes. */
  lemma LegacyMissReplaces<W>(validate: Option<W> -> bool, m: map<string, Option<W>>, key: string,
                              computed: Result<Option<W>, Error>, ignoreCache: bool)
    ensures var (r, called, t) := LegacyCall(validate, m, key, computed, ignoreCache);
      && (called ==> r == computed)
      && (called && computed.Ok? && validate(computed.value) ==> key in t && t[key] == computed.value)
      && (called && !(computed.Ok? && validate(computed.value)) ==> key !in t)
      && t - {key} == m - {key}
  {
    var (r, called, t) := LegacyCall(validate, m, key, computed, ignoreCache);
    if called {
      assert t - {key} == m - {key};
    }
  }

  /** The storage only ever receives results that pass `validate`. */
  lemma LegacyKeepsValid<W>(validate: Option<W> -> bool, m: map<string, Option<W>>, key: string,
                            computed: Result<Option<W>, Error>, ignoreCache: bool)
    requires AllValid(validate, m)
    ensures AllValid(validate, LegacyCall(validate, m, key, computed, ignoreCache).2)
  {
  }

  /** Memoization: once a result that passes `validate` and is not `None` has
      been returned, the next call with the same key returns it again without
      calling the function. */
  lemma LegacyRemembers<W>(validate: Option<W> -> bool, m: map<string, Option<W>>, key: string,
                           computed: Option<W>, computed2: Result<Option<W>, Error>, ignoreCache: bool)
    requires computed.Some? && validate(computed)
    ensures var (r1, _, t1) := LegacyCall(validate, m, key, Ok(computed), ignoreCache);
            var (r2, called2, _) := LegacyCall(validate, t1, key, computed2, false);
            r2 == r1 && !called2
  {
  }

  /** The storage of `storage_tools`, known only as a map with `get`
      (`None` when the key is absent), `set` and `delete`. */
  class KeyValueStorage<V> {
    var entries: map<string, V>

    constructor(entries: map<string, V>)
      ensures this.entries == entries
    {
      this.entries := entries;
    }

    method Get(key: string) returns (r: Option<V>)
      ensures r == if key in entries then Some(entries[key]) else None
    {
      if key in entries {
        return Some(entries[key]);
      }
      return None;
    }

    method Set(key: string, value: V)
      modifies this
      ensures entries == old(entries)[key := value]
    {
      entries := entries[key := value];
    }

    method Delete(key: string)
      modifies this
      ensures entries == old(entries) - {key}
    {
      entries := entries - {key};
    }
  }

  /** The class object `Cache`, whose `_storage` attribute every instance
      reads and writes through the `storage` property. It is unset until the
      setter first runs. */
  class CacheClass<W> {
    var storage: Option<KeyValueStorage<Option<W>>>

    constructor()
      ensures storage == None
    {
      storage := None;
    }
  }

  /** cache.py's `Cache`. */
  class LegacyCache<W> {
    const validate: Option<W> -> bool
    const cls: CacheClass<W>

    /** `Cache(result_validator, storage)` as written: `storage` is ignored,
        so the class attribute keeps whatever it held. */
    constructor AsWritten(validator: Option<Option<W> -> bool>, storage: KeyValueStorage<Option<W>>, cls: CacheClass<W>)
      ensures this.cls == cls
      ensures validator.Some? ==> validate == validator.value
      ensures validator.None? ==> forall v :: validate(v)
    {
      if validator.Some? {
        validate := validator.value;
      } else {
        validate := _ => true;
      }
      this.cls := cls;
    }

    /** `Cache(result_validator, storage)` as evidently intended: `storage` is
        assigned through the `storage` setter. */
    constructor(validator: Option<Option<W> -> bool>, storage: KeyValueStorage<Option<W>>, cls: CacheClass<W>)
      modifies cls
      ensures this.cls == cls && cls.storage == Some(storage)
      ensures validator.Some? ==> validate == validator.value
      ensures validator.None? ==> forall v :: validate(v)
    {
      if validator.Some? {
        validate := validator.value;
      } else {
        validate := _ => true;
      }
      this.cls := cls;
      new;
      SetStorage(storage);
    }

    /** The `storage` setter: assigns the class attribute. */
    method SetStorage(storage: KeyValueStorage<Option<W>>)
      modifies cls
      ensures cls.storage == Some(storage)
    {
      cls.storage := Some(storage);
    }

    /** The decorated function. The encoder keys every call; reading
        `storage` before it was ever set raises `AttributeError`; a call the
        function cannot bind raises `TypeError` only when the function is
        called, after the lookup and the delete. */
    method Call(f: Codec.Func, func: (seq<string>, map<string, string>) -> Option<W>,
                args: seq<string>, kwargs: map<string, string>, ignoreCache: bool)
      returns (r: Result<Option<W>, Error>, called: bool)
      requires Codec.WellFormed(f.sig)
      modifies if cls.storage.Some? then {cls.storage.value} else {}
      ensures cls.storage.None? ==> r == Err(AttributeError) && !called
      ensures cls.storage.Some? ==>
                (r, called, cls.storage.value.entries)
                == LegacyCall(validate, old(cls.storage.value.entries), Codec.CallKey(f, args, kwargs),
                              Invoke(func, f.sig, args, kwargs), ignoreCache)
    {
      var key := Codec.KeyFromFunctionCall(f, args, kwargs);
      if cls.storage.None? {
        return Err(AttributeError), false;
      }
      var storage := cls.storage.value;
      if !ignoreCache {
        var result := storage.Get(key);
        if result.Some? && result.value.Some? && validate(result.value) {
          return Ok(result.value), false;
        }
      }
      storage.Delete(key);
      var value := Invoke(func, f.sig, args, kwargs);
      if value.Err? {
        return Err(value.error), true;
      }
      if validate(value.value) {
        storage.Set(key, value.value);
      }
      return Ok(value.value), true;
    }
  }

  /** Assigning `storage` through one instance changes what every other
      instance reads. */
  method AssignThroughOne<W>(a: LegacyCache<W>, b: LegacyCache<W>, storage: KeyValueStorage<Option<W>>)
    requires a.cls == b.cls
    modifies a.cls
    ensures b.cls.storage == Some(storage)
  {
    a.SetStorage(storage);
  }

  /** As written, a cache built with a storage cannot be used: the first call
      raises `AttributeError`, because the storage was never assigned. */
  method AsWrittenFirstCallFails<W>(validator: Option<Option<W> -> bool>, storage: KeyValueStorage<Option<W>>,
                                    f: Codec.Func, func: (seq<string>, map<string, string>) -> Option<W>,
                                    args: seq<string>, kwargs: map<string, string>)
    returns (r: Result<Option<W>, Error>, called: bool)
    requires Codec.WellFormed(f.sig)
    ensures r == Err(AttributeError) && !called
  {
    var cls := new CacheClass<W>();
    var cache := new LegacyCache<W>.AsWritten(validator, storage, cls);
    r, called := cache.Call(f, func, args, kwargs, false);
  }

  /** With the storage assigned, the first call on an empty storage runs the
      function and returns its result. */
  method FirstCallComputes<W>(validator: Option<Option<W> -> bool>,
                              f: Codec.Func, func: (seq<string>, map<string, string>) -> Option<W>,
                              args: seq<string>, kwargs: map<string, string>)
    returns (r: Result<Option<W>, Error>, called: bool)
    requires Codec.WellFormed(f.sig) && |args| <= |f.sig.names|
    ensures r == Ok(func(args, kwargs)) && called
  {
    var cls := new CacheClass<W>();
    var storage := new KeyValueStorage<Option<W>>(map[]);
    var cache := new LegacyCache<W>(validator, storage, cls);
    r, called := cache.Call(f, func, args, kwargs, false);
  }
}
