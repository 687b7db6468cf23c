/** What `DictRepository` (repositories.py) does to its two dictionaries,
    `storage` and `expire_storage`, and what the wrappers that
    `KeyValueRepository.__init_subclass__` installs add on top: serialization,
    optional encryption and the `get`/`set`/`delete` helpers. The classes in
    module `Repositories` are proved against these functions. Times are whole
    seconds on one clock, passed in where the source reads `_now()`. */
module Storage {
  import opened Base

  /** `storage` (key to stored bytes) and `expire_storage` (key to the instant
      after which the key is forgotten). */
  datatype Store = Store(data: map<string, Bytes>, expiry: map<string, int>)

  /** Every deadline belongs to a stored key, and without a positive
      `expire_seconds` no deadline is ever recorded. */
  predicate Valid(s: Store, ttl: int) {
    && s.expiry.Keys <= s.data.Keys
    && (ttl <= 0 ==> s.expiry == map[])
  }

  /** `_expire`: with a positive `expire_seconds`, the key's deadline moves to
      `expire_seconds` after now. */
  function Touch(s: Store, key: string, ttl: int, now: int): Store {
    if ttl <= 0 then s else Store(s.data, s.expiry[key := now + ttl])
  }

  /** The key has a deadline that has passed. A deadline equal to now has not. */
  predicate Stale(s: Store, key: string, ttl: int, now: int) {
    ttl > 0 && key in s.expiry && s.expiry[key] < now
  }

  /** The key can be read now. */
  predicate Live(s: Store, key: string, ttl: int, now: int) {
    key in s.data && !Stale(s, key, ttl, now)
  }

  /** `DictRepository.__delitem__`. */
  function Remove(s: Store, key: string): (Result<(), Error>, Store) {
    if key !in s.data then (Err(NotFound), s)
    else (Ok(()), Store(s.data - {key}, s.expiry - {key}))
  }

  /** `DictRepository.__setitem__`: insert only. */
  function Insert(s: Store, key: string, b: Bytes, ttl: int, now: int): (Result<(), Error>, Store) {
    if key in s.data then (Err(AlreadyStored), s)
    else (Ok(()), Touch(Store(s.data[key := b], s.expiry), key, ttl, now))
  }

  /** `DictRepository.__getitem__`: a stale key is deleted and reported as
      expired; a successful read restarts the key's deadline. */
  function Lookup(s: Store, key: string, ttl: int, now: int): (Result<Bytes, Error>, Store) {
    if key !in s.data then (Err(NotFound), s)
    else if Stale(s, key, ttl, now) then (Err(Expired), Remove(s, key).1)
    else (Ok(s.data[key]), Touch(s, key, ttl, now))
  }

  // ---------------------------------------------------------------------
  // Properties of the raw operations
  // ---------------------------------------------------------------------

  /** `__getitem__` succeeds exactly on a live key, returns its bytes and
      restarts its deadline; a stored but stale key is gone afterwards; a
      missing key changes nothing. */
  lemma LookupLive(s: Store, key: string, ttl: int, now: int)
    ensures var (r, t) := Lookup(s, key, ttl, now);
      && (r.Ok? <==> Live(s, key, ttl, now))
      && (r.Ok? ==> r.value == s.data[key] && t.data == s.data && (ttl > 0 ==> t.expiry == s.expiry[key := now + ttl]))
      && (key !in s.data ==> r == Err(NotFound) && t == s)
      && (key in s.data && !Live(s, key, ttl, now) ==> r == Err(Expired) && key !in t.data && key !in t.expiry)
  {
  }

  /** `__setitem__` refuses a stored key and leaves everything as it was;
      otherwise the key holds the new bytes with a fresh deadline. */
  lemma InsertOnly(s: Store, key: string, b: Bytes, ttl: int, now: int)
    ensures var (r, t) := Insert(s, key, b, ttl, now);
      && (r == Err(AlreadyStored) <==> key in s.data)
      && (r.Err? ==> t == s)
      && (r.Ok? ==> t.data == s.data[key := b] && Live(t, key, ttl, now))
  {
  }

  /** `__delitem__` refuses a missing key; otherwise the key and its deadline are gone. */
  lemma RemoveStrict(s: Store, key: string)
    ensures var (r, t) := Remove(s, key);
      && (r == Err(NotFound) <==> key !in s.data)
      && (r.Ok? <==> key in s.data)
      && key !in t.data
      && (r.Ok? ==> t == Store(s.data - {key}, s.expiry - {key}))
      && (r.Err? ==> t == s)
  {
  }

  /** Every raw operation keeps the store valid. */
  lemma OperationsKeepValid(s: Store, key: string, b: Bytes, ttl: int, now: int)
    requires Valid(s, ttl)
    ensures Valid(Lookup(s, key, ttl, now).1, ttl)
    ensures Valid(Insert(s, key, b, ttl, now).1, ttl)
    ensures Valid(Remove(s, key).1, ttl)
  {
  }

  /** Every raw operation touches only its own key. */
  lemma OperationsFrame(s: Store, key: string, b: Bytes, ttl: int, now: int)
    ensures Lookup(s, key, ttl, now).1.data - {key} == s.data - {key}
    ensures Lookup(s, key, ttl, now).1.expiry - {key} == s.expiry - {key}
    ensures Insert(s, key, b, ttl, now).1.data - {key} == s.data - {key}
    ensures Insert(s, key, b, ttl, now).1.expiry - {key} == s.expiry - {key}
    ensures Remove(s, key).1.data - {key} == s.data - {key}
    ensures Remove(s, key).1.expiry - {key} == s.expiry - {key}
  {
  }

  /** Reading a key at each of `times` in turn. */
  function LookupsAt(s: Store, key: string, ttl: int, times: seq<int>): (rs: seq<Result<Bytes, Error>>)
    ensures |rs| == |times|
    decreases |times|
  {
    if times == [] then []
    else
      var (r, t) := Lookup(s, key, ttl, times[0]);
      [r] + LookupsAt(t, key, ttl, times[1..])
  }

  /** Sliding expiration: a key read again within `expire_seconds` of each
      previous read never expires, however long the whole series lasts. */
  lemma {:induction false} SlidingExpiration(s: Store, key: string, ttl: int, times: seq<int>)
    requires times != [] ==> Live(s, key, ttl, times[0])
    requires forall i :: 0 < i < |times| ==> times[i] <= times[i - 1] + ttl
    ensures forall i :: 0 <= i < |times| ==> LookupsAt(s, key, ttl, times)[i] == Ok(s.data[key])
    decreases |times|
  {
    if times != [] {
      var t := Lookup(s, key, ttl, times[0]).1;
      LookupLive(s, key, ttl, times[0]);
      var rest := times[1..];
      if rest != [] {
        assert rest[0] == times[1];
        assert Live(t, key, ttl, rest[0]);
      }
      SlidingExpiration(t, key, ttl, rest);
      var rs := LookupsAt(s, key, ttl, times);
      forall i | 0 <= i < |times|
        ensures rs[i] == Ok(s.data[key])
      {
        if i > 0 {
          assert rs[i] == LookupsAt(t, key, ttl, rest)[i - 1];
        }
      }
    }
  }

  /** A read at the deadline still succeeds; a read one second later finds
      the key expired and deletes it. */
  lemma ExpiresAfterDeadline(s: Store, key: string, ttl: int, b: Bytes, at: int)
    requires ttl > 0 && key !in s.data
    ensures var t := Insert(s, key, b, ttl, at).1;
      && Lookup(t, key, ttl, at + ttl).0 == Ok(b)
      && Lookup(t, key, ttl, at + ttl + 1).0 == Err(Expired)
      && key !in Lookup(t, key, ttl, at + ttl + 1).1.data
  {
  }

  /** The repository tests' scenario: a key stored with `expire_seconds=60`,
      read 40 seconds later and again 80 seconds after it was stored, is
      still there; without the first read it would have expired. */
  lemma RefreshScenario(s: Store, key: string, b: Bytes)
    requires key !in s.data
    ensures var t := Insert(s, key, b, 60, 0).1;
      && LookupsAt(t, key, 60, [40, 80]) == [Ok(b), Ok(b)]
      && Lookup(t, key, 60, 80).0 == Err(Expired)
  {
    var t := Insert(s, key, b, 60, 0).1;
    SlidingExpiration(t, key, 60, [40, 80]);
  }

  // ---------------------------------------------------------------------
  // Values: serialization and encryption
  // ---------------------------------------------------------------------

  /** `serialize_val` and `unserialize_val`; `load` gives `None` on bytes it
      cannot decode. */
  datatype Serializer<!V> = Serializer(dump: V -> Bytes, load: Bytes -> Option<V>)

  /** A Fernet cipher. Encryption also consumes fresh randomness (an IV and a
      timestamp), given here as the `nonce`; decryption gives `None` for a
      token it rejects (`InvalidToken`). */
  datatype Cipher = Cipher(encrypt: (Bytes, Bytes) -> Bytes, decrypt: Bytes -> Option<Bytes>)

  /** What a repository applies around its raw operations. `encrypted` is
      `_is_encrypted`, fixed when the repository is built, and decides whether
      the wrappers encrypt; `cipher` is a separate attribute that callers may
      replace, even with `None`. */
  datatype Config<!V> = Config(ttl: int, ser: Serializer<V>, encrypted: bool, cipher: Option<Cipher>)

  ghost predicate SerializerRoundTrips<V(!new)>(ser: Serializer<V>) {
    forall v :: ser.load(ser.dump(v)) == Some(v)
  }

  ghost predicate CipherRoundTrips(c: Cipher) {
    forall plain, nonce :: c.decrypt(c.encrypt(plain, nonce)) == Some(plain)
  }

  /** The serializer decodes what it encodes, and an encrypted repository
      holds a cipher that decrypts what it encrypts. */
  ghost predicate Sound<V(!new)>(cfg: Config<V>) {
    SerializerRoundTrips(cfg.ser) && (cfg.encrypted ==> cfg.cipher.Some? && CipherRoundTrips(cfg.cipher.value))
  }

  /** `__init__`: an empty passphrase means no encryption; any other builds a
      cipher from it (`build_cipher`). */
  function CipherFor(passphrase: string, build: string -> Cipher): (c: Option<Cipher>)
    ensures c.None? <==> passphrase == ""
  {
    if passphrase == "" then None else Some(build(passphrase))
  }

  /** The bytes the `__setitem__` wrapper hands to the raw `__setitem__`:
      serialized, then encrypted if `_is_encrypted`; `None.encrypt` raises
      `AttributeError` before the raw `__setitem__` runs. */
  function Seal<V>(cfg: Config<V>, v: V, nonce: Bytes): Result<Bytes, Error> {
    if !cfg.encrypted then Ok(cfg.ser.dump(v))
    else match cfg.cipher
      case None => Err(AttributeError)
      case Some(c) => Ok(c.encrypt(cfg.ser.dump(v), nonce))
  }

  /** What the `__getitem__` wrapper makes of the raw bytes: decrypted if
      `_is_encrypted` (`None.decrypt` raises `AttributeError`), then
      unserialized. */
  function Unseal<V>(cfg: Config<V>, b: Bytes): Result<V, Error> {
    var plain: Result<Bytes, Error> :=
      if !cfg.encrypted then Ok(b)
      else match cfg.cipher
        case None => Err(AttributeError)
        case Some(c) =>
          match c.decrypt(b)
          case None => Err(InvalidToken)
          case Some(p) => Ok(p);
    if plain.Err? then Err(plain.error)
    else match cfg.ser.load(plain.value)
      case None => Err(Undecodable)
      case Some(v) => Ok(v)
  }

  lemma UnsealSeal<V(!new)>(cfg: Config<V>, v: V, nonce: Bytes)
    requires Sound(cfg)
    ensures Seal(cfg, v, nonce).Ok? && Unseal(cfg, Seal(cfg, v, nonce).value) == Ok(v)
  {
    var d := cfg.ser.dump(v);
    if cfg.encrypted {
      assert cfg.cipher.value.decrypt(cfg.cipher.value.encrypt(d, nonce)) == Some(d);
    }
    assert cfg.ser.load(d) == Some(v);
  }

  /** Whether the wrappers can reach the cipher: they look up
      `self.cipher.encrypt` or `self.cipher.decrypt` only when `_is_encrypted`,
      and on `None` that lookup raises `AttributeError`. */
  predicate CipherReachable<V>(cfg: Config<V>) {
    !cfg.encrypted || cfg.cipher.Some?
  }

  /** The wrapped `__getitem__`. Python looks up `self.cipher.decrypt` before
      it evaluates the argument, so an unreachable cipher raises before the
      raw read and leaves the store untouched. */
  function GetItem<V>(cfg: Config<V>, s: Store, key: string, now: int): (Result<V, Error>, Store) {
    if !CipherReachable(cfg) then (Err(AttributeError), s)
    else
      var (r, t) := Lookup(s, key, cfg.ttl, now);
      (if r.Err? then Err(r.error) else Unseal(cfg, r.value), t)
  }

  /** The wrapped `__setitem__`. */
  function SetItem<V>(cfg: Config<V>, s: Store, key: string, v: V, nonce: Bytes, now: int): (Result<(), Error>, Store) {
    match Seal(cfg, v, nonce)
    case Err(e) => (Err(e), s)
    case Ok(b) => Insert(s, key, b, cfg.ttl, now)
  }

  /** `delete`: `__delitem__` with its `KeyError` swallowed. */
  function Delete(s: Store, key: string): Store {
    Remove(s, key).1
  }

  /** `set`: `delete`, then the wrapped `__setitem__`. */
  function Set<V>(cfg: Config<V>, s: Store, key: string, v: V, nonce: Bytes, now: int): (Result<(), Error>, Store) {
    SetItem(cfg, Delete(s, key), key, v, nonce, now)
  }

  /** The repository's `default` attribute: `lambda _: None` when none was
      given, a one-argument callable, or a callable that takes no argument
      (which raises `TypeError` when `get` passes it the key). */
  datatype DefaultFn<!V> = NoDefault | Unary(f: string -> V) | Nullary

  /** `self.default(key)`; `Ok(None)` is Python's `None`. */
  function CallDefault<V>(d: DefaultFn<V>, key: string): Result<Option<V>, Error> {
    match d
    case NoDefault => Ok(None)
    case Unary(f) => Ok(Some(f(key)))
    case Nullary => Err(TypeError)
  }

  /** `get`: the wrapped `__getitem__`, with `KeyError` turned into the default. */
  function Get<V>(cfg: Config<V>, d: DefaultFn<V>, s: Store, key: string, now: int): (Result<Option<V>, Error>, Store) {
    var (r, t) := GetItem(cfg, s, key, now);
    if r.Ok? then (Ok(Some(r.value)), t)
    else if r.error.IsKeyError() then (CallDefault(d, key), t)
    else (Err(r.error), t)
  }

  // ---------------------------------------------------------------------
  // Properties of the wrapped operations
  // ---------------------------------------------------------------------

  /** `delete` never fails, leaves the key absent, and a second `delete` changes nothing. */
  lemma DeleteIdempotent(s: Store, key: string)
    ensures Delete(s, key).data == s.data - {key}
    ensures key in s.data ==> Delete(s, key).expiry == s.expiry - {key}
    ensures Delete(Delete(s, key), key) == Delete(s, key)
  {
  }

  /** `set` never fails, whether or not the key was stored, and a read at the
      same instant returns the value that was set. */
  lemma SetThenGetItem<V(!new)>(cfg: Config<V>, s: Store, key: string, v: V, nonce: Bytes, now: int)
    requires Sound(cfg)
    ensures Set(cfg, s, key, v, nonce, now).0 == Ok(())
    ensures GetItem(cfg, Set(cfg, s, key, v, nonce, now).1, key, now).0 == Ok(v)
  {
    UnsealSeal(cfg, v, nonce);
  }

  /** After `set`, the key stays readable until `expire_seconds` after the
      write, and it reads back the value that was set. */
  lemma SetReadableUntilDeadline<V(!new)>(cfg: Config<V>, s: Store, key: string, v: V, nonce: Bytes, now: int, later: int)
    requires Sound(cfg) && now <= later && (cfg.ttl > 0 ==> later <= now + cfg.ttl)
    ensures Live(Set(cfg, s, key, v, nonce, now).1, key, cfg.ttl, later)
    ensures key in Set(cfg, s, key, v, nonce, now).1.data
    ensures Unseal(cfg, Set(cfg, s, key, v, nonce, now).1.data[key]) == Ok(v)
  {
    UnsealSeal(cfg, v, nonce);
  }

  /** `get` returns the stored value of a live key; a missing or expired key
      gives the default instead of `KeyError`; a token the cipher rejects or
      bytes the serializer rejects still raise. An encrypted repository whose
      `cipher` is `None` raises `AttributeError` for every key, which `get`
      does not catch, and its store is left as it was. */
  lemma GetFallsBack<V>(cfg: Config<V>, d: DefaultFn<V>, s: Store, key: string, now: int)
    ensures var (r, t) := Get(cfg, d, s, key, now);
      && (!CipherReachable(cfg) ==> r == Err(AttributeError) && t == s)
      && (CipherReachable(cfg) && !Live(s, key, cfg.ttl, now) ==> r == CallDefault(d, key))
      && (CipherReachable(cfg) && Live(s, key, cfg.ttl, now) ==>
            match Unseal(cfg, s.data[key])
            case Ok(v) => r == Ok(Some(v))
            case Err(e) => r == Err(e) && !e.IsKeyError())
  {
    LookupLive(s, key, cfg.ttl, now);
  }

  /** A value stored under one cipher cannot be read under a cipher that
      rejects its token: `get` raises instead of falling back to the default. */
  lemma WrongCipherRaises<V>(cfg: Config<V>, other: Cipher, d: DefaultFn<V>, s: Store, key: string, v: V, nonce: Bytes, now: int)
    requires cfg.encrypted && cfg.cipher.Some? && other.decrypt(cfg.cipher.value.encrypt(cfg.ser.dump(v), nonce)).None?
    ensures var t := Set(cfg, s, key, v, nonce, now).1;
      Get(cfg.(cipher := Some(other)), d, t, key, now).0 == Err(InvalidToken)
  {
  }

  /** `_is_encrypted` is fixed when the repository is built: on a repository
      built without a passphrase, whatever is later assigned to `cipher`, a
      write stores the plain serialized value and a read only unserializes. */
  lemma CipherIgnoredWhenPlain<V>(cfg: Config<V>, other: Option<Cipher>, s: Store, key: string, v: V, nonce: Bytes, now: int)
    requires !cfg.encrypted
    ensures SetItem(cfg.(cipher := other), s, key, v, nonce, now) == SetItem(cfg, s, key, v, nonce, now)
    ensures GetItem(cfg.(cipher := other), s, key, now) == GetItem(cfg, s, key, now)
    ensures key !in s.data ==>
              var (r, t) := SetItem(cfg.(cipher := other), s, key, v, nonce, now);
              r == Ok(()) && key in t.data && t.data[key] == cfg.ser.dump(v)
  {
  }

  /** An encrypted repository whose `cipher` was set to `None` raises
      `AttributeError` on every key: a write before the raw `__setitem__`, a
      read before the raw `__getitem__`, both leaving the store as it was, and
      `get` whatever its default; `set` has already deleted the key. */
  lemma MissingCipherRaises<V>(cfg: Config<V>, d: DefaultFn<V>, s: Store, key: string, v: V, nonce: Bytes, now: int)
    requires cfg.encrypted && cfg.cipher.None?
    ensures SetItem(cfg, s, key, v, nonce, now) == (Err(AttributeError), s)
    ensures GetItem(cfg, s, key, now) == (Err(AttributeError), s)
    ensures Get(cfg, d, s, key, now) == (Err(AttributeError), s)
    ensures Set(cfg, s, key, v, nonce, now) == (Err(AttributeError), Delete(s, key))
  {
  }
}
