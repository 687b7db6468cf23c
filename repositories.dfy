/** The in-memory repositories of repositories.py as objects whose
    dictionaries their methods update in place: `DictRepository`, with the
    wrapped item access and the `get`/`set`/`delete` helpers it inherits, and
    `DefaultRepository`. Each `DictRepository` method is proved against the
    function of module `Storage` that describes it. `customize_key` is the
    identity for both classes, so keys reach the dictionaries unchanged. */
module Repositories {
  import opened Base
  import Storage

  class DictRepository<V> {
    /** `storage`: key to the serialized (and possibly encrypted) value. */
    var storage: map<string, Bytes>
    /** `expire_storage`: key to the instant after which it is forgotten. */
    var expireStorage: map<string, int>
    const expireSeconds: int
    /** `serialize_val` / `unserialize_val` (JSON). */
    const ser: Storage.Serializer<V>
    /** `_is_encrypted`, fixed by the constructor. */
    const isEncrypted: bool
    /** `cipher`: `None` when built without a passphrase; callers may replace it. */
    var cipher: Option<Storage.Cipher>
    /** `default`, which callers may replace. */
    var default: Storage.DefaultFn<V>
    const hasDefault: bool

    function State(): Storage.Store
      reads this
    {
      Storage.Store(storage, expireStorage)
    }

    function Config(): Storage.Config<V>
      reads this
    {
      Storage.Config(expireSeconds, ser, isEncrypted, cipher)
    }

    ghost predicate Valid()
      reads this
    {
      Storage.Valid(State(), expireSeconds)
    }

    /** `DictRepository(storage, expire_seconds, passphrase, default=default)`;
        `build` stands for `build_cipher`. */
    constructor(initial: map<string, Bytes>, expireSeconds: int, passphrase: string,
                build: string -> Storage.Cipher, default: Option<string -> V>, ser: Storage.Serializer<V>)
      ensures storage == initial && expireStorage == map[]
      ensures this.expireSeconds == expireSeconds && this.ser == ser
      ensures isEncrypted <==> passphrase != ""
      ensures cipher == Storage.CipherFor(passphrase, build)
      ensures hasDefault == default.Some?
      ensures this.default == if default.None? then Storage.NoDefault else Storage.Unary(default.value)
      ensures Valid()
    {
      storage := initial;
      this.expireSeconds := expireSeconds;
      this.ser := ser;
      if default.None? {
        hasDefault := false;
        this.default := Storage.NoDefault;
      } else {
        hasDefault := true;
        this.default := Storage.Unary(default.value);
      }
      if passphrase == "" {
        isEncrypted := false;
        cipher := None;
      } else {
        isEncrypted := true;
        cipher := Some(build(passphrase));
      }
      expireStorage := map[];
    }

    /** `_expire`. */
    method Expire(key: string, now: int)
      modifies this`expireStorage
      ensures State() == Storage.Touch(old(State()), key, expireSeconds, now)
      ensures old(Valid()) && key in storage ==> Valid()
    {
      if expireSeconds <= 0 {
        return;
      }
      expireStorage := expireStorage[key := now + expireSeconds];
    }

    /** `__delitem__` (the wrapper only customizes the key). */
    method DelItem(key: string) returns (r: Result<(), Error>)
      modifies this`storage, this`expireStorage
      ensures (r, State()) == Storage.Remove(old(State()), key)
      ensures old(Valid()) ==> Valid()
    {
      if key !in storage {
        return Err(NotFound);
      }
      storage := storage - {key};
      expireStorage := expireStorage - {key};
      return Ok(());
    }

    /** The raw `__getitem__`. */
    method RawGetItem(key: string, now: int) returns (r: Result<Bytes, Error>)
      modifies this`storage, this`expireStorage
      ensures (r, State()) == Storage.Lookup(old(State()), key, expireSeconds, now)
      ensures old(Valid()) ==> Valid()
    {
      if key !in storage {
        return Err(NotFound);
      }
      var value := storage[key];
      if expireSeconds > 0 && key in expireStorage && expireStorage[key] < now {
        var _ := DelItem(key);
        return Err(Expired);
      }
      Expire(key, now);
      return Ok(value);
    }

    /** The raw `__setitem__`. */
    method RawSetItem(key: string, value: Bytes, now: int) returns (r: Result<(), Error>)
      modifies this`storage, this`expireStorage
      ensures (r, State()) == Storage.Insert(old(State()), key, value, expireSeconds, now)
      ensures old(Valid()) ==> Valid()
    {
      if key in storage {
        return Err(AlreadyStored);
      }
      storage := storage[key := value];
      Expire(key, now);
      return Ok(());
    }

    /** The wrapped `__getitem__`: `AttributeError` before the raw read if
        `_is_encrypted` and `cipher` is `None`; otherwise the raw read, then
        decryption if `_is_encrypted`, then unserialization. */
    method GetItem(key: string, now: int) returns (r: Result<V, Error>)
      modifies this`storage, this`expireStorage
      ensures (r, State()) == Storage.GetItem(Config(), old(State()), key, now)
      ensures old(Valid()) ==> Valid()
    {
      if !Storage.CipherReachable(Config()) {
        return Err(AttributeError);
      }
      var raw := RawGetItem(key, now);
      if raw.Err? {
        return Err(raw.error);
      }
      r := Storage.Unseal(Config(), raw.value);
    }

    /** The wrapped `__setitem__`: serialize, then encrypt if `_is_encrypted`,
        then the raw write.
        `nonce` is the randomness Fernet draws when it encrypts. */
    method SetItem(key: string, value: V, nonce: Bytes, now: int) returns (r: Result<(), Error>)
      modifies this`storage, this`expireStorage
      ensures (r, State()) == Storage.SetItem(Config(), old(State()), key, value, nonce, now)
      ensures old(Valid()) ==> Valid()
    {
      var sealed := Storage.Seal(Config(), value, nonce);
      if sealed.Err? {
        return Err(sealed.error);
      }
      r := RawSetItem(key, sealed.value, now);
    }

    /** `delete`. */
    method Delete(key: string)
      modifies this`storage, this`expireStorage
      ensures State() == Storage.Delete(old(State()), key)
      ensures old(Valid()) ==> Valid()
    {
      var r := DelItem(key);
    }

    /** `get`: a `KeyError` gives `self.default(key)`. */
    method Get(key: string, now: int) returns (r: Result<Option<V>, Error>)
      modifies this`storage, this`expireStorage
      ensures (r, State()) == Storage.Get(Config(), default, old(State()), key, now)
      ensures old(Valid()) ==> Valid()
    {
      var item := GetItem(key, now);
      if item.Ok? {
        return Ok(Some(item.value));
      }
      if item.error.IsKeyError() {
        return Storage.CallDefault(default, key);
      }
      return Err(item.error);
    }

    /** `set`: `delete`, then the wrapped `__setitem__`. */
    method Set(key: string, value: V, nonce: Bytes, now: int) returns (r: Result<(), Error>)
      modifies this`storage, this`expireStorage
      ensures (r, State()) == Storage.Set(Config(), old(State()), key, value, nonce, now)
      ensures old(Valid()) ==> Valid()
    {
      Delete(key);
      r := SetItem(key, value, nonce, now);
    }
  }

  /** A Python `str` or `bytes`: what `DefaultRepository`'s default returns. */
  datatype Payload = Text(text: string) | Blob(bytes: Bytes)

  /** `pickle.loads(x)`: refuses a `str` with `TypeError`. */
  function Loads(pickle: Storage.Serializer<Payload>, x: Payload): Result<Payload, Error> {
    match x
    case Text(_) => Err(TypeError)
    case Blob(b) =>
      match pickle.load(b)
      case None => Err(Undecodable)
      case Some(p) => Ok(p)
  }

  /** The wrapped `DefaultRepository.__getitem__` as written: on a miss the
      raw method stores the default through the wrapped `__setitem__` and
      returns it through the wrapped `__getitem__`, already unpickled; the
      outer wrapper then unpickles that value a second time. */
  function DefaultGetItemAsWritten(pickle: Storage.Serializer<Payload>, default: string -> Payload,
                                   data: map<string, Bytes>, key: string): (Result<Payload, Error>, map<string, Bytes>)
  {
    if key in data then (Loads(pickle, Blob(data[key])), data)
    else
      var stored := data[key := pickle.dump(default(key))];
      var inner := Loads(pickle, Blob(stored[key]));
      (if inner.Err? then inner else Loads(pickle, inner.value), stored)
  }

  /** The wrapped `DefaultRepository.__getitem__` as evidently intended: a
      miss stores the default and returns the stored bytes, which the wrapper
      unpickles once. */
  function DefaultGetItem(pickle: Storage.Serializer<Payload>, default: string -> Payload,
                          data: map<string, Bytes>, key: string): (Result<Payload, Error>, map<string, Bytes>)
  {
    var stored := if key in data then data else data[key := pickle.dump(default(key))];
    (Loads(pickle, Blob(stored[key])), stored)
  }

  /** The first read of a missing key returns the default and stores it; every
      later read returns the same value, and nothing raises `KeyError`. */
  lemma DefaultReadsAreStable(pickle: Storage.Serializer<Payload>, default: string -> Payload,
                              data: map<string, Bytes>, key: string)
    requires Storage.SerializerRoundTrips(pickle) && key !in data
    ensures var (r, stored) := DefaultGetItem(pickle, default, data, key);
      && r == Ok(default(key))
      && stored == data[key := pickle.dump(default(key))]
      && DefaultGetItem(pickle, default, stored, key) == (Ok(default(key)), stored)
  {
    assert pickle.load(pickle.dump(default(key))) == Some(default(key));
  }

  /** As written, the first read of a key whose default is a `str` raises
      `TypeError`, although it stores the value, which the second read returns. */
  lemma DefaultFirstReadFails(pickle: Storage.Serializer<Payload>, default: string -> Payload,
                              data: map<string, Bytes>, key: string)
    requires Storage.SerializerRoundTrips(pickle) && key !in data && default(key).Text?
    ensures var (r, stored) := DefaultGetItemAsWritten(pickle, default, data, key);
      && r == Err(TypeError)
      && DefaultGetItemAsWritten(pickle, default, stored, key).0 == Ok(default(key))
  {
    assert pickle.load(pickle.dump(default(key))) == Some(default(key));
  }

  class DefaultRepository {
    var storage: map<string, Bytes>
    /** The required `default`, called with the key on a miss. */
    const default: string -> Payload
    /** `serialize_val` / `unserialize_val` (pickle). */
    const pickle: Storage.Serializer<Payload>

    /** `DefaultRepository(default=default)`: an empty dictionary, no
        expiration, no encryption. */
    constructor(default: string -> Payload, pickle: Storage.Serializer<Payload>)
      ensures storage == map[] && this.default == default && this.pickle == pickle
    {
      storage := map[];
      this.default := default;
      this.pickle := pickle;
    }

    /** `__delitem__`: never raises. */
    method DelItem(key: string)
      modifies this`storage
      ensures storage == old(storage) - {key}
    {
      storage := storage - {key};
    }

    /** The wrapped `__setitem__`: insert only. */
    method SetItem(key: string, value: Payload) returns (r: Result<(), Error>)
      modifies this`storage
      ensures r.Err? <==> key in old(storage)
      ensures r == Err(AlreadyStored) || r == Ok(())
      ensures storage == if key in old(storage) then old(storage) else old(storage)[key := pickle.dump(value)]
    {
      if key in storage {
        return Err(AlreadyStored);
      }
      storage := storage[key := pickle.dump(value)];
      return Ok(());
    }

    /** The raw `__getitem__` as written; it returns a `bytes` object on a
        hit and, through the wrapped `__getitem__`, an unpickled one on a miss. */
    method RawGetItemAsWritten(key: string) returns (r: Result<Payload, Error>)
      modifies this`storage
      ensures (if r.Err? then r else Loads(pickle, r.value), storage)
              == DefaultGetItemAsWritten(pickle, default, old(storage), key)
      decreases if key in storage then 0 else 1, 0
    {
      if key in storage {
        return Ok(Blob(storage[key]));
      }
      var stored := SetItem(key, default(key));
      r := GetItemAsWritten(key);
    }

    /** The wrapped `__getitem__` as written. */
    method GetItemAsWritten(key: string) returns (r: Result<Payload, Error>)
      modifies this`storage
      ensures (r, storage) == DefaultGetItemAsWritten(pickle, default, old(storage), key)
      decreases if key in storage then 0 else 1, 1
    {
      var raw := RawGetItemAsWritten(key);
      if raw.Err? {
        return raw;
      }
      r := Loads(pickle, raw.value);
    }

    /** The wrapped `__getitem__` as evidently intended. */
    method GetItem(key: string) returns (r: Result<Payload, Error>)
      modifies this`storage
      ensures (r, storage) == DefaultGetItem(pickle, default, old(storage), key)
    {
      if key !in storage {
        var stored := SetItem(key, default(key));
      }
      r := Loads(pickle, Blob(storage[key]));
    }

    /** `set`: `delete`, then the wrapped `__setitem__`, which cannot fail. */
    method Set(key: string, value: Payload) returns (r: Result<(), Error>)
      modifies this`storage
      ensures r == Ok(())
      ensures storage == old(storage)[key := pickle.dump(value)]
    {
      DelItem(key);
      r := SetItem(key, value);
    }
  }
}
