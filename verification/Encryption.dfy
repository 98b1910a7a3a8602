/** Field-level encryption over an ideal authenticated cipher (cms/encryption_utils.py).

    A stored string is either clear text or a token. A token remembers the key that
    made it, a nonce, and what it encloses; it opens only under its own key. The bytes
    enclosed may fail to decode as UTF-8 (`Binary`), which the source turns into an error. */
module Encryption {
  import opened Wrappers

  type Key = string

  datatype Text = Plain(s: string) | Token(key: Key, nonce: nat, payload: Payload)
  datatype Payload = Utf8(text: Text) | Binary(bytes: seq<nat>)

  /** A nullable string column. */
  type Column = Option<Text>

  datatype Error = EncryptionError
  type Decrypted = Result<Column, Error>

  datatype Keyring = Keyring(current: Key, legacy: seq<Key>) {
    ghost function Keys(): set<Key> { {current} + set k | k in legacy }
  }

  /** Python truthiness of a column value. */
  predicate Truthy(v: Column) { v.Some? && v != Some(Plain("")) }

  function Seal(key: Key, nonce: nat, v: Column): Column
    requires v.Some?
  {
    Some(Token(key, nonce, Utf8(v.value)))
  }

  /** `w` is some encryption of `v` under `key`; the nonce is left open. */
  predicate Sealed(key: Key, v: Column, w: Column) {
    v.Some? && w.Some? && w.value.Token? && w.value.key == key && w.value.payload == Utf8(v.value)
  }

  /** What a set of keys can read out of a column, whatever order they are tried in. */
  ghost function Open(keys: set<Key>, v: Column): Decrypted {
    match v
    case None => Ok(None)
    case Some(t) =>
      if t.Token? && t.key in keys && t.payload.Utf8? then Ok(Some(t.payload.text)) else Err(EncryptionError)
  }

  /** A reader that falls back to the stored value when it does not open. */
  ghost function Read(keys: set<Key>, v: Column): Column {
    match Open(keys, v)
    case Ok(p) => p
    case Err(_) => v
  }

  /** `Fernet(key).decrypt`: None stands for InvalidToken. */
  function FernetOpen(key: Key, t: Text): Option<Payload> {
    if t.Token? && t.key == key then Some(t.payload) else None
  }

  method Encrypt(ring: Keyring, v: Column) returns (r: Column)
    ensures v.None? ==> r.None?
    ensures v.Some? ==> Sealed(ring.current, v, r)
    ensures v.Some? ==> Open({ring.current}, r) == Ok(v)
  {
    if v.None? { return None; }
    var nonce: nat := *;
    r := Seal(ring.current, nonce, v);
  }

  /** Current key first, then the legacy keys in order. */
  method Decrypt(ring: Keyring, v: Column) returns (r: Decrypted)
    ensures r == Open(ring.Keys(), v)
    ensures v.None? ==> r == Ok(None)
    ensures v.Some? ==>
              r == if v.value.Token? && (v.value.key == ring.current || v.value.key in ring.legacy) && v.value.payload.Utf8?
                   then Ok(Some(v.value.payload.text))
                   else Err(EncryptionError)
  {
    if v.None? { return Ok(None); }
    match FernetOpen(ring.current, v.value) {
      case Some(Utf8(p)) => return Ok(Some(p));
      case Some(Binary(_)) => return Err(EncryptionError);
      case None =>
    }
    for i := 0 to |ring.legacy|
      invariant forall j | 0 <= j < i ::
                  FernetOpen(ring.legacy[j], v.value).None? || FernetOpen(ring.legacy[j], v.value).value.Binary?
    {
      match FernetOpen(ring.legacy[i], v.value) {
        case Some(Utf8(p)) => return Ok(Some(p));
        case Some(Binary(_)) =>
        case None =>
      }
    }
    return Err(EncryptionError);
  }

  /** Retiring a key into the legacy list loses nothing: what `Encrypt` made under the ring of that key is read back
      under every ring that has the key as its current one or in its legacy list, and under no other. */
  lemma RetiredKeysStillRead(made: Keyring, ring: Keyring, v: Column, w: Column)
    requires Sealed(made.current, v, w)
    ensures Open(ring.Keys(), w) == (if made.current == ring.current || made.current in ring.legacy then Ok(v)
                                     else Err(EncryptionError))
    ensures Read(ring.Keys(), w) == (if made.current == ring.current || made.current in ring.legacy then v else w)
  {
  }

  method IsEncryptedWithCurrentKey(ring: Keyring, v: Column) returns (r: bool)
    ensures r <==> v.None? || (v.value.Token? && v.value.key == ring.current)
  {
    r := v.None? || FernetOpen(ring.current, v.value).Some?;
  }

  /** Re-encryption succeeds on exactly what opens, and its result needs only the current key. */
  method ReEncrypt(ring: Keyring, v: Column) returns (r: Decrypted)
    ensures r.Ok? <==> Open(ring.Keys(), v).Ok?
    ensures r.Ok? ==> Open({ring.current}, r.value) == Open(ring.Keys(), v)
  {
    var decrypted := Decrypt(ring, v);
    match decrypted {
      case Err(e) => return Err(e);
      case Ok(p) =>
        var sealed := Encrypt(ring, p);
        return Ok(sealed);
    }
  }

  // ---------------------------------------------------------------------------
  // Dictionaries
  // ---------------------------------------------------------------------------

  type Record = map<string, Column>

  function Count(fields: seq<string>, f: string): nat {
    if fields == [] then 0 else (if fields[0] == f then 1 else 0) + Count(fields[1..], f)
  }

  lemma {:induction false} CountAppend(fields: seq<string>, g: string, f: string)
    ensures Count(fields + [g], f) == Count(fields, f) + if f == g then 1 else 0
  {
    if fields == [] {
      assert fields + [g] == [g];
      assert [g][1..] == [];
    } else {
      CountAppend(fields[1..], g, f);
      assert (fields + [g])[1..] == fields[1..] + [g];
    }
  }

  /** `outer` is `inner` sealed `n` times over. */
  ghost predicate Layered(key: Key, n: nat, inner: Column, outer: Column)
    decreases n
  {
    if n == 0 then inner == outer
    else outer.Some? && outer.value.Token? && outer.value.key == key && outer.value.payload.Utf8?
         && Layered(key, n - 1, inner, Some(outer.value.payload.text))
  }

  /** Each listed, non-empty entry gains one layer per time it is listed; the rest is untouched. */
  ghost predicate LayeredRecord(key: Key, fields: seq<string>, data: Record, out: Record) {
    && out.Keys == data.Keys
    && forall f | f in data ::
         if Truthy(data[f]) then Layered(key, Count(fields, f), data[f], out[f]) else out[f] == data[f]
  }

  method EncryptDictFields(ring: Keyring, data: Record, fields: seq<string>) returns (out: Record)
    ensures LayeredRecord(ring.current, fields, data, out)
  {
    out := data;
    for i := 0 to |fields|
      invariant LayeredRecord(ring.current, fields[..i], data, out)
    {
      forall f | f in data ensures Count(fields[..i + 1], f) == Count(fields[..i], f) + if f == fields[i] then 1 else 0 {
        assert fields[..i + 1] == fields[..i] + [fields[i]];
        CountAppend(fields[..i], fields[i], f);
      }
      if fields[i] in out && Truthy(out[fields[i]]) {
        var sealed := Encrypt(ring, out[fields[i]]);
        out := out[fields[i] := sealed];
      }
      forall f | f in data && Truthy(data[f]) ensures Layered(ring.current, Count(fields[..i + 1], f), data[f], out[f]) {
      }
    }
    assert fields[..|fields|] == fields;
  }

  /** The decryption loop as a function of what remains to be visited. */
  ghost function DecryptFields(keys: set<Key>, data: Record, fields: seq<string>): Result<Record, Error>
    decreases |fields|
  {
    if fields == [] then Ok(data)
    else if fields[0] in data && Truthy(data[fields[0]]) then
      match Open(keys, data[fields[0]])
      case Ok(p) => DecryptFields(keys, data[fields[0] := p], fields[1..])
      case Err(e) => Err(e)
    else DecryptFields(keys, data, fields[1..])
  }

  method DecryptDictFields(ring: Keyring, data: Record, fields: seq<string>) returns (r: Result<Record, Error>)
    ensures r == DecryptFields(ring.Keys(), data, fields)
  {
    var out := data;
    for i := 0 to |fields|
      invariant DecryptFields(ring.Keys(), data, fields) == DecryptFields(ring.Keys(), out, fields[i..])
    {
      assert fields[i..][1..] == fields[i + 1..];
      if fields[i] in out && Truthy(out[fields[i]]) {
        var p := Decrypt(ring, out[fields[i]]);
        if p.Err? { return Err(p.error); }
        out := out[fields[i] := p.value];
      }
    }
    return Ok(out);
  }

  /** Decrypting a dictionary undoes encrypting it, even when a field is listed twice. */
  lemma {:induction false} DictRoundTrip(ring: Keyring, data: Record, fields: seq<string>, out: Record)
    requires LayeredRecord(ring.current, fields, data, out)
    ensures DecryptFields(ring.Keys(), out, fields) == Ok(data)
    decreases |fields|
  {
    if fields == [] {
      assert forall f | f in data :: Count([], f) == 0;
      assert out == data;
    } else {
      var g := fields[0];
      if g in out && Truthy(data[g]) {
        assert Count(fields, g) > 0;
        var next := out[g := Some(out[g].value.payload.text)];
        DictRoundTrip(ring, data, fields[1..], next);
      } else {
        DictRoundTrip(ring, data, fields[1..], out);
      }
    }
  }

  ghost predicate OpenedOnly(keys: set<Key>, data: Record, fields: seq<string>, out: Record) {
    && out.Keys == data.Keys
    && forall f | f in data ::
         if f in fields && Truthy(data[f]) then Open(keys, data[f]) == Ok(out[f]) else out[f] == data[f]
  }

  /** When no field is listed twice: decryption succeeds exactly if each listed, non-empty entry opens; then each of
      those is its content, and every other entry is as it was. */
  lemma {:induction false} DecryptFieldsExact(keys: set<Key>, data: Record, fields: seq<string>)
    requires forall i, j | 0 <= i < j < |fields| :: fields[i] != fields[j]
    ensures var r := DecryptFields(keys, data, fields);
            && (r.Ok? <==> forall f | f in fields && f in data && Truthy(data[f]) :: Open(keys, data[f]).Ok?)
            && (r.Ok? ==> OpenedOnly(keys, data, fields, r.value))
    decreases |fields|
  {
    if fields != [] {
      var g, rest := fields[0], fields[1..];
      assert fields == [g] + rest && g !in rest;
      if g in data && Truthy(data[g]) {
        if Open(keys, data[g]).Ok? { DecryptFieldsExact(keys, data[g := Open(keys, data[g]).value], rest); }
      } else {
        DecryptFieldsExact(keys, data, rest);
      }
    }
  }
}
