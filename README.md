# omnidict in Dafny

omnidict gives key-value *repositories* one dictionary interface: they store
serialized, optionally encrypted values, and keys can expire some seconds
after they were last read. It also provides *memoizing decorators*, which
cache a function's results in a repository under a canonical *call key*, and
an *encrypted shelf*. This project models the core of omnidict and proves
what each part promises:

- `base.dfy`, module `Base`: bytes, `Option`, `Result`, and the exceptions
  the core raises (`KeyError` for a missing, expired or already-stored key,
  Fernet's `InvalidToken`, `TypeError`, `AttributeError`, `ValueError`, and a
  value that cannot be decoded).
- `codec.dfy`, module `Codec`: the call-key codec,
  `Cache.key_from_function_call` and `Cache.function_call_from_key` from
  `caching.py`. `cache.py` carries a verbatim copy of both, at
  `src/omnidict/cache.py:52-109`.
  - The keyword walk `all_as_kwargs` is a method with a loop, proved
    against the function `Rebind`.
  - Proved for the walk: it conserves the arguments; two calls that pass
    every parameter and bind the same values get the same key; the test
    suite's keys come out as expected.
  - Calls that leave a defaulted parameter out can share a key with a
    different call. A corrected encoder applies the defaults first, and its
    keys agree exactly when the bound values agree.
  - Proved for decoding: it inverts encoding, and renders holding `:`
    corrupt the key.
- `storage.dfy`, module `Storage`: what `DictRepository` does to its two
  dictionaries (`storage` and `expire_storage`), and the wrappers that
  `KeyValueRepository.__init_subclass__` installs (serialize, then encrypt).
  - It covers `get`, `set` and `delete`.
  - Proved: the sliding expiration, insert-only `__setitem__`, strict
    `__delitem__`, set-then-get, and fallback to `default`.
- `repositories.dfy`, module `Repositories`: the classes `DictRepository`
  and `DefaultRepository`, whose methods update their dictionaries in
  place.
  - Each `DictRepository` method is proved against the `Storage` function
    that describes it.
- `memo.dfy`, module `Memo`: the two decorators `Cache.__call__`, one over
  a `DictRepository` (`caching.py`) and one over a storage shared by the
  class (`cache.py`).
  - Proved: a hit skips the function, a miss calls it once, only validated
    results are stored, and a result is remembered.
- `shelf.dfy`, module `Shelf`: `EncryptShelf`, with its write-back cache
  and the re-keying loop `update_aes`.
  - Proved: set-then-get, and that re-keying keeps every value and every
    key.

Design choices in the model:

- **Values.** A decorated function's arguments are their string renders,
  because the key only ever sees `str(x)`. Python's `None` is `None` of
  `Option`.
- **Time and randomness.** The clock (`_now()`) is an explicit `now`. The
  randomness Fernet draws is an explicit `nonce`.
- **Serializer and ciphers.** JSON, pickle, Fernet and the shelf's
  pickle-pad-AES pipeline are function-valued parameters. The proofs assume
  only what matters: decoding what was encoded gives it back.

## Model

| member | source | states |
|---|---|---|
| Codec.AllAsKwargs | src/omnidict/caching.py:57-78 | the loop that walks the declared parameters from the last to the first computes exactly the binding `Rebind` defines |
| Codec.KeyFromFunctionCall | src/omnidict/caching.py:53-84 | the key is the qualified name, `:?:`, the positional part joined by `:::`, `:&:`, and the `name=value` items joined by `:::` |
| Codec.RebindConserves | src/omnidict/caching.py:57-78 | no argument is lost or duplicated: the positional part is a prefix of the arguments, and the arguments moved into the keyword part are the remaining ones, popped from the right |
| Codec.ProperCallRebind | src/omnidict/caching.py:57-78 | for a call that binds every parameter once, the positional part is exactly the positional-only arguments and every other parameter is bound by name, last parameter first |
| Codec.EquivalentCallsSameKey | src/omnidict/caching.py:53-84 | two calls that pass every parameter explicitly and bind each to the same value get the same key, whichever way each argument was passed (calls that leave a defaulted parameter out: see Findings) |
| Codec.TestSuiteKeys | tests/test_caching.py:48-51 | `f(1, 2, c=3, d=4, e=5, f=6)` and `f(1, 2, 3, e=5, f=6, d=4)` both have the key `test_caching.f:?:1:::2:&:f=6:::e=5:::d=4:::c=3` |
| Codec.TestMethodKey | tests/test_caching.py:52-53 | the method call `m(1, c=3, b=2)` has the key `test_caching.m:?:1:&:c=3:::b=2` |
| Codec.FindFrom | src/omnidict/caching.py:104-105 | the separator search finds the leftmost occurrence at or after the start, as `str.split` does |
| Codec.SplitPiece | src/omnidict/caching.py:108 | `split('=', 1)` cuts at the first `=`, so the name has no `=` and name, `=` and value give back the piece; a piece without `=` cannot become a dictionary item |
| Codec.DecodeRender | src/omnidict/caching.py:104-109 | decoding a rendered key gives back the prefix, the positional renders and the keyword items as a dictionary, provided the prefix holds no `:`, no render is empty or holds a `:`, no positional render is a lone `?` or `&`, and no name holds `=` |
| Codec.CallKeyRoundTrip | src/omnidict/caching.py:53-109 | for a proper call with safe renders, decoding its key gives back the qualified name, the positional-only arguments, and a dictionary holding exactly the other parameters, each bound to the value the call gave it |
| Codec.ColonInRenderCorruptsKey | src/omnidict/caching.py:104-109 | a render holding `:` is not read back: the renders `a:` and `b` decode as `a` and `:b` |
| Codec.TestFunctionKeyDecodes | tests/test_caching.py:56-60 | the test suite's first key decodes to `('1', '2')` and `{'f': '6', 'e': '5', 'd': '4', 'c': '3'}` |
| Codec.TestMethodKeyDecodes | tests/test_caching.py:61-64 | the test suite's second key decodes to `('1',)` and `{'c': '3', 'b': '2'}` |
| Codec.SurplusStaysPositional | src/omnidict/caching.py:73-77 | the walk moves at most one argument per parameter, so arguments beyond the parameter count stay in the positional part of the key instead of raising `IndexError` |
| Codec.SurplusCallGetsKey | src/omnidict/caching.py:120-126 | `def f(a)` called as `f(1, 2)` still gets the key `m.f:?:1:&:a=2` |
| Codec.DefaultedCallsCollide | src/omnidict/caching.py:57-78 | as written, `def f(a=0, b=0)` called as `f(1)` and as `f(b=1)` gets the same key `m.f:?::&:b=1` |
| Codec.ProperCallKeepsKey | src/omnidict/caching.py:53-84 | on a call that passes every parameter, the encoder with defaults applied gives the key the encoder as written gives |
| Codec.SurplusCallRefused | src/omnidict/caching.py:120-126 | the encoder with defaults applied refuses a call with more positional arguments than parameters with `TypeError` |
| Codec.SameKeyIffSameBinding | src/omnidict/caching.py:53-109 | for calls that pass every parameter, with safe renders, two keys are equal exactly when the calls bind every parameter to the same value |
| Codec.BoundKeysCanonical | src/omnidict/caching.py:57-78 | with defaults applied, two calls Python accepts get the same key exactly when they bind every parameter, defaulted ones included, to the same value |
| Codec.DefaultedCallsKeptApart | src/omnidict/caching.py:57-78 | with defaults applied, `f(1)` and `f(b=1)` for `def f(a=0, b=0)` get different keys |
| Codec.BoundKeyFromFunctionCall | src/omnidict/caching.py:53-84 | computes the key of the call once Python has bound it with its defaults, through the `all_as_kwargs` walk, or `TypeError` for a call Python cannot bind |
| Storage.LookupLive | src/omnidict/repositories.py:199-211 | `__getitem__` succeeds exactly on a stored key whose deadline has not passed, returns its bytes and restarts its deadline; a missing key raises and changes nothing; an expired key raises and is deleted with its deadline |
| Storage.InsertOnly | src/omnidict/repositories.py:220-224 | `__setitem__` raises exactly when the key is stored, and then changes nothing; otherwise the key holds the bytes and can be read now |
| Storage.RemoveStrict | src/omnidict/repositories.py:213-218 | `__delitem__` raises exactly on a missing key, and then changes nothing; otherwise the key and its deadline are gone |
| Storage.OperationsKeepValid | src/omnidict/repositories.py:194-224 | every deadline belongs to a stored key, and no deadline is kept without a positive `expire_seconds`, across every raw operation |
| Storage.OperationsFrame | src/omnidict/repositories.py:194-224 | every raw operation leaves every other key and its deadline alone |
| Storage.SlidingExpiration | src/omnidict/repositories.py:194-211 | a key read again within `expire_seconds` of each previous read never expires, however long the series |
| Storage.ExpiresAfterDeadline | src/omnidict/repositories.py:203-209 | a key read exactly at its deadline is returned; one second later it raises and is deleted |
| Storage.RefreshScenario | tests/test_repositories.py:145-157 | stored with `expire_seconds=60`, read at 40 s and at 80 s: both reads return the value; without the read at 40 s the read at 80 s would raise |
| Storage.UnsealSeal | src/omnidict/repositories.py:93-103 | under a sound configuration the `__setitem__` wrapper always produces bytes, and the `__getitem__` wrapper decodes them back to the value, encrypted or not |
| Storage.CipherIgnoredWhenPlain | src/omnidict/repositories.py:93-103 | the wrappers branch on `_is_encrypted`, fixed at construction: on a repository built without a passphrase, any `cipher` assigned later changes neither writes nor reads, and a write stores the plain serialized value |
| Storage.MissingCipherRaises | src/omnidict/repositories.py:93-103 | on an encrypted repository whose `cipher` was set to `None`, every key raises `AttributeError`: a write before the raw `__setitem__` and a read before the raw `__getitem__` (Python looks up `self.cipher.decrypt` before evaluating its argument), both leaving the store unchanged; `get` raises it under any default, and `set` after its delete |
| Storage.DeleteIdempotent | src/omnidict/repositories.py:160-165 | `delete` never raises, leaves the key absent (with its deadline), and a second `delete` changes nothing |
| Storage.SetThenGetItem | src/omnidict/repositories.py:174-177 | `set` succeeds whether or not the key was stored, and the value reads back |
| Storage.SetReadableUntilDeadline | src/omnidict/repositories.py:174-177 | after `set` the key stays readable, with the value set, until `expire_seconds` after the write |
| Storage.GetFallsBack | src/omnidict/repositories.py:167-172 | `get` of a missing or expired key returns `default(key)`; a live key gives its value; an undecodable value or a rejected token still raises; an encrypted repository whose `cipher` is `None` raises `AttributeError` on every key, which `get` does not catch, with the store unchanged |
| Storage.WrongCipherRaises | tests/test_repositories.py:160-166 | after the cipher is replaced by one that rejects the stored token, `get` raises `InvalidToken` instead of returning the default |
| Repositories.DictRepository.constructor | src/omnidict/repositories.py:183-192 | the initial dictionary, no deadlines, `_is_encrypted` set and the cipher built exactly when a passphrase is given, and a default that returns `None` when none is given |
| Repositories.DictRepository.Expire | src/omnidict/repositories.py:194-197 | the state is `Touch` of the old state: a new deadline only with a positive `expire_seconds`; on a stored key it keeps the invariant that every deadline belongs to a stored key |
| Repositories.DictRepository.DelItem | src/omnidict/repositories.py:213-218 | result and new state are those of `Storage.Remove`; the invariant `Valid` (every deadline belongs to a stored key) is kept |
| Repositories.DictRepository.RawGetItem | src/omnidict/repositories.py:199-211 | result and new state are those of `Storage.Lookup`; the invariant `Valid` (every deadline belongs to a stored key) is kept |
| Repositories.DictRepository.RawSetItem | src/omnidict/repositories.py:220-224 | result and new state are those of `Storage.Insert`; the invariant `Valid` (every deadline belongs to a stored key) is kept |
| Repositories.DictRepository.GetItem | src/omnidict/repositories.py:93-97 | result and new state are those of `Storage.GetItem`: `AttributeError` before the raw read, store untouched, when `_is_encrypted` holds and `cipher` is `None`; otherwise the raw read, then decryption if `_is_encrypted`, then deserialization; the invariant `Valid` (every deadline belongs to a stored key) is kept |
| Repositories.DictRepository.SetItem | src/omnidict/repositories.py:98-103 | result and new state are those of `Storage.SetItem`: serialization, then encryption if `_is_encrypted` (raising before the raw write if `cipher` is `None`), then the raw write; the invariant `Valid` (every deadline belongs to a stored key) is kept |
| Repositories.DictRepository.Delete | src/omnidict/repositories.py:160-165 | the new state is that of `Storage.Delete`; the invariant `Valid` (every deadline belongs to a stored key) is kept |
| Repositories.DictRepository.Get | src/omnidict/repositories.py:167-172 | result and new state are those of `Storage.Get` with the repository's current `default` (so, by `Storage.GetFallsBack`, `AttributeError` with the store untouched on an encrypted repository whose `cipher` is `None`, whatever the key); the invariant `Valid` (every deadline belongs to a stored key) is kept |
| Repositories.DictRepository.Set | src/omnidict/repositories.py:174-177 | result and new state are those of `Storage.Set`; the invariant `Valid` (every deadline belongs to a stored key) is kept |
| Repositories.DefaultReadsAreStable | src/omnidict/repositories.py:406-413 | the first read of a missing key returns `default(key)` and stores it, and the next read returns the same value |
| Repositories.DefaultFirstReadFails | src/omnidict/repositories.py:406-413 | as written, the first read of a key whose default is a `str` raises `TypeError`, though it stores the value, which the second read returns |
| Repositories.DefaultRepository.constructor | src/omnidict/repositories.py:395-396 | an empty dictionary and the given default |
| Repositories.DefaultRepository.DelItem | src/omnidict/repositories.py:415-416 | the key is gone and nothing raises |
| Repositories.DefaultRepository.SetItem | src/omnidict/repositories.py:418-421 | insert only: raises exactly when the key is stored, and then changes nothing |
| Repositories.DefaultRepository.RawGetItemAsWritten | src/omnidict/repositories.py:406-413 | a hit returns the stored bytes; a miss stores the default and returns the wrapped read of it, so the outer wrapper gives `DefaultGetItemAsWritten` |
| Repositories.DefaultRepository.GetItemAsWritten | src/omnidict/repositories.py:406-413 | result and new dictionary are those of `DefaultGetItemAsWritten`, which unpickles a missed key twice |
| Repositories.DefaultRepository.GetItem | src/omnidict/repositories.py:406-413 | result and new dictionary are those of `DefaultGetItem`: store the default on a miss, then unpickle once |
| Repositories.DefaultRepository.Set | src/omnidict/repositories.py:174-177 | `set` never fails and the key holds the new value |
| Memo.CachingHit | src/omnidict/caching.py:128-135 | a live entry other than `None` is returned without calling the function |
| Memo.RefusedCallsAreNotKeyed | src/omnidict/caching.py:120-137 | whenever calling the decorated function raises `TypeError`, the corrected key is refused with `TypeError` too, and whenever the corrected key exists the function returns its result |
| Memo.CachingMiss | src/omnidict/caching.py:136-140 | with the corrected one-argument default (see Findings): with `ignore_cache` or without a live entry, the function runs once and its result is returned; it reads back only if `validate` accepts it, and a rejected result removes nothing beyond what the lookup removed |
| Memo.CachingNoneRecomputes | src/omnidict/caching.py:132-140 | with the corrected one-argument default (see Findings): a live entry holding `None` is no hit, so the function runs and its result is returned; an accepted result reads back, and a rejected one leaves the stored bytes as they were |
| Memo.CachingMissRaises | src/omnidict/caching.py:129-133 | as written, a lookup that misses calls the installed `lambda: None` with the key and raises `TypeError` before the function runs; on an encrypted repository whose `cipher` is `None` the read raises `AttributeError` first, on every key, leaving the store unchanged |
| Memo.CachingSetFailureRaises | src/omnidict/caching.py:136-140 | a validated result that `set` cannot store (an encrypted repository whose `cipher` is `None`) is not returned: `AttributeError` propagates from the decorated call, after `set` has deleted the key |
| Memo.CachingRemembers | src/omnidict/caching.py:116-140 | with the corrected one-argument default (see Findings): after a call whose result is accepted and not `None`, the same key within `expire_seconds` returns that result without calling the function |
| Memo.EquivalentCallHits | tests/test_caching.py:78-87 | with the corrected one-argument default (see Findings): a call followed by an equivalent call, binding the same values differently, runs the function at most once |
| Memo.Cache.constructor | src/omnidict/caching.py:38-50 | the validator defaults to accepting everything, and the repository to a fresh empty `DictRepository` without expiry, encryption or default |
| Memo.Cache.CallAsWritten | src/omnidict/caching.py:116-140 | result, whether the function ran, and the new store are those of `CachingCall` with the nullary default and the function's own `TypeError` for surplus positionals; an exception from the lookup or from `set` propagates (`Compute`), and the old default is not restored when `get` raises |
| Memo.Cache.Call | src/omnidict/caching.py:116-140 | the corrected decorator (see Findings): a call Python cannot bind raises `TypeError` and changes nothing; otherwise the behaviour is that of `CachingCall`, under the key of the call with its defaults applied, with a one-argument default returning `None`; an exception from the lookup or from `set` propagates instead of the result being returned |
| Memo.LegacyHitIsValid | src/omnidict/cache.py:137-140 | the function is skipped exactly when the stored result is not `None` and passes `validate`, and that result is returned |
| Memo.LegacyMissReplaces | src/omnidict/cache.py:141-145 | on a miss the old entry is deleted, the function's result (or its exception) is returned, and a result is stored exactly when `validate` accepts it; other keys are untouched |
| Memo.LegacyKeepsValid | src/omnidict/cache.py:141-145 | the storage only ever receives results that pass `validate` |
| Memo.LegacyRemembers | src/omnidict/cache.py:126-145 | after a result that passes `validate` and is not `None`, the next call with the same key returns it without calling the function |
| Memo.LegacyCache.AsWritten | src/omnidict/cache.py:40-48 | as written, the constructor sets the validator and ignores `storage` |
| Memo.LegacyCache.constructor | src/omnidict/cache.py:40-48 | the validator as given or accepting everything, and `storage` assigned to the class |
| Memo.LegacyCache.SetStorage | src/omnidict/cache.py:116-119 | the setter assigns the storage on the class, not on the instance |
| Memo.LegacyCache.Call | src/omnidict/cache.py:126-145 | the encoder keys every call; a storage never assigned raises `AttributeError`; otherwise result, whether the function ran, and the new entries are those of `LegacyCall`, where a call with more positional arguments than parameters misses, deletes its key, and then raises `TypeError` from the function itself |
| Memo.AssignThroughOne | src/omnidict/cache.py:111-119 | assigning `storage` through one instance changes what every other instance reads |
| Memo.AsWrittenFirstCallFails | src/omnidict/cache.py:40-48 | as written, the first call of a decorator built with a storage raises `AttributeError` |
| Memo.FirstCallComputes | src/omnidict/cache.py:126-145 | with the storage assigned, the first call runs the function and returns its result |
| Shelf.EncryptShelf.constructor | src/omnidict/encript_shelve.py:32-36 | the given dictionary, or a fresh empty one, an empty cache, and the seed |
| Shelf.EncryptShelf.GetItem | src/omnidict/encript_shelve.py:55-69 | a cached value first; else the stored bytes opened under the current seed, a missing key raising and undecodable bytes failing; the dictionary is unchanged, and the cache gains the value only with write-back |
| Shelf.EncryptShelf.SetItem | src/omnidict/encript_shelve.py:71-79 | the key holds the value sealed under the current seed; with write-back the plain value is cached too |
| Shelf.EncryptShelf.UpdateAes | src/omnidict/encript_shelve.py:43-53 | equal seeds change nothing; otherwise it succeeds exactly when every entry can be read under the old seed, and then every entry is re-sealed under the new seed, the cache holds every value (with write-back), and the seed is the new one; a failure keeps the old seed and leaves each entry either as it was or re-sealed; in every case each cached value is the value its key read before, the cache grows only with write-back, and the shelf invariant `Valid` is kept |
| Shelf.RekeyPreservesValues | src/omnidict/encript_shelve.py:43-53 | after re-keying, every key is still there and reads, under the new seed, the value it had under the old one |
| Shelf.SetThenGet | src/omnidict/encript_shelve.py:55-79 | a value written under a seed reads back under that seed, with or without write-back |
| Shelf.WrongSeedFails | src/omnidict/encript_shelve.py:63-66 | bytes sealed under one seed that another seed cannot open are reported as undecodable when not cached |

## Left out

- The I/O repositories `RedisRepository`, `DirectoryRepository` and `DbFilenameRepository`, and `DbfilenameEncryptShelf`. They keep the same contract over a server, files or a dbm file, and their state lives outside the program.
- `build_cipher`, `aes_cipher`, Fernet, AES-EAX, padding, JSON and pickle. Each is an abstract function pair that decodes what it encodes. The encrypted shelf uses AES-EAX without checking its tag, so a wrong seed can also yield garbage rather than an error. The abstract `open` allows that case but nothing is proved about it.
- Shelf.EncryptShelf.UpdateAes: `update_aes()` without an argument seeds with `None`, that is system randomness. The shelf then cannot read its own entries back. The model takes seeds abstractly and proves re-keying only for a seed whose codec round-trips, so it does not capture that case.
- Shelf keys are strings. The encoding to bytes with `keyencoding` is a bijection and is left out.
- The order in which the shelf iterates its keys is the dictionary's. `UpdateAes` picks the next key arbitrarily, so its contract holds for every order.
- `_now()` is read once per repository operation. An operation that reads the clock twice (a read, then the new deadline) is modelled with one instant.
- Time is a whole number of seconds (`now: int`). `_now()` is a `datetime` with microseconds, so in Python a key already expires one microsecond after its deadline.
- Storage.ExpiresAfterDeadline: its "one second later" is the first instant the model can express after the deadline, not the first instant at which Python raises.
- `customize_key` is the identity in the repositories modelled. The `prefix` option that `tests/test_repositories.py:42-44` passes is not accepted by the `repositories.py` constructors modelled.
- `iter_matching` and `from_existing` raise `NotImplementedError` in the base class and are left out.
- The JSON serializer's conversions (a tuple read back as a list) and values it cannot serialize are not modelled. The serializer is assumed to round-trip.
- `DictRepository(storage or dict())` shares the caller's dictionary object. The model copies its contents, so aliasing with the caller is not captured.
- A decorated function is a pure function of its arguments' renders. `*args`/`**kwargs` parameters and renders as `str()` of arbitrary objects are outside `Signature`. Parameter defaults are a separate `Codec.Defaults` map, read only by the corrected encoder `BoundKey`.
- Codec.EquivalentCallsSameKey: canonicalisation is proved only for calls that bind every parameter explicitly (`ProperCall`). The encoder as written ignores defaults and keys calls that leave a defaulted parameter out under the wrong parameter (see Findings).
- Memo.Invoke: of the calls Python refuses to bind, only surplus positional arguments are modelled as raising `TypeError`. The function model still returns a value for four other calls that Python refuses:
  - a call missing a parameter that has no default;
  - a call passing an unknown keyword;
  - a keyword-only parameter passed positionally (`def f(a, *, b)` called as `f(1, 2)`);
  - a parameter given twice (`f(1, a=1)`).
- Codec.BoundKey: a keyword-only parameter passed positionally is not refused, because `Signature` does not record which parameters are keyword-only. An unknown keyword is not refused either; it is ignored, as the encoder as written ignores it.
- Storage.CipherFor: the passphrase is a string. `_SeedType` also admits `int`, `float`, `bytes`, `bytearray` and `None`, and `not passphrase` treats `0`, `0.0`, `b''` and `None` as "no encryption" too. Only the empty string is modelled as that case.
- Memo.KeyValueStorage: `storage_tools` (the `cache.py` storage classes) is not part of this model. It is stood in for by a map with `get` (giving `None` when absent), `set` and `delete`.
- In `cache.py`, the default `storage_tools.DirectoryStorage()` argument is evaluated once, when the module loads. It is left out with the rest of `storage_tools`.
- The `DefaultRepository` `get` and `delete` helpers are not modelled separately. Its `__getitem__` never raises `KeyError`, so `get` is its `__getitem__`. Its `__delitem__` never raises, so `delete` is its `__delitem__`.
- Version metadata (`__init__.py`, `key_value`) is left out.

## Findings

| source | as written | input that shows it | evidently intended | confidence | as-written member | corrected member |
|---|---|---|---|---|---|---|
| src/omnidict/caching.py:131 | a lookup installs `lambda: None` as `default`, but `get` calls `self.default(key)` with one argument | any call whose key is missing or expired, without `ignore_cache` | a one-argument default returning `None`, so a miss calls the function | high; not executed | Memo.CachingMissRaises | Memo.CachingMiss |
| src/omnidict/repositories.py:412-413 | on a miss, `self[key]` runs the wrapped `__getitem__`, which already unpickles, and the outer wrapper unpickles the result again | `DefaultRepository(default=lambda k: 'x')['a']` raises `TypeError` on a `str` | store the default, then return the stored bytes, unpickled once | high; not executed | Repositories.DefaultFirstReadFails | Repositories.DefaultReadsAreStable |
| src/omnidict/cache.py:40-48 | the `storage` argument is never assigned, so the class attribute `_storage` is never set | `Cache(storage=s)(f)(1)` raises `AttributeError` | assign `storage` through the `storage` setter | high; not executed | Memo.AsWrittenFirstCallFails | Memo.FirstCallComputes |
| src/omnidict/caching.py:57-78 | the walk never looks at parameter defaults, so a lone positional argument moves onto the last parameter not passed by keyword | `def f(a=0, b=0)`: `f(1)` and `f(b=1)` both get the key `m.f:?::&:b=1`, so `f(b=1)` returns the cached result of `f(1)` | key the call as Python binds it, defaults applied, so that two calls share a key exactly when they bind the same values | high; not executed | Codec.DefaultedCallsCollide | Codec.BoundKeysCanonical |
| src/omnidict/caching.py:73-77 | `in_args.pop(-1)` runs at most once per parameter, so the `except IndexError` at line 122 never catches surplus positionals; such calls are keyed | `def f(a)` called as `f(1, 2)` gets the key `m.f:?:1:&:a=2` | refuse calls that cannot bind, with `TypeError` | low; not executed | Codec.SurplusCallGetsKey | Codec.SurplusCallRefused |
