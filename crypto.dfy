/** The crypto service: the key lifecycle, the `ivB64:contentB64` envelope
    around one encrypted text, the byte/char-code loops around base64, and the
    record codec that swaps a transaction's amount and description for
    envelopes and back. */
module Crypto {
  import opened Wrappers
  import opened Types
  import opened Numbers
  import Base64
  import opened Cipher

  /** STORAGE_KEY: the key-store slot the exported key lives in. */
  const StorageKey: string := "flashfinance_master_key"

  /** A nonce as `encrypt` draws it: IV_LENGTH random bytes. */
  type Iv = s: seq<byte> | |s| == IvLength witness seq(12, _ => 0)

  /** The markers `decrypt` returns instead of throwing. */
  const MalformedMarker: string := ""
  const FailedMarker: string := "***"

  // ---------------------------------------------------------------------------
  // Binary strings: the strings of byte-valued characters btoa/atob work on.

  /** The binary string whose char code i is byte i. */
  function Binary(bytes: seq<byte>): (s: string)
    ensures |s| == |bytes|
  {
    seq(|bytes|, i requires 0 <= i < |bytes| => bytes[i] as char)
  }

  /** `window.btoa` on a binary string; `None` is the InvalidCharacterError it
      throws on a character above 255. */
  function Btoa(binary: string): Option<string> {
    if forall i :: 0 <= i < |binary| ==> binary[i] as int < 256 then
      Some(Base64.Encode(seq(|binary|, i requires 0 <= i < |binary| => binary[i] as int)))
    else None
  }

  /** `window.atob`; `None` is the InvalidCharacterError it throws. */
  function Atob(text: string): Option<string> {
    match Base64.Decode(text)
    case Some(bytes) => Some(Binary(bytes))
    case None => None
  }

  /** arrayBufferToBase64: one character per byte, char code = byte, then btoa. */
  method ArrayBufferToBase64(bytes: seq<byte>) returns (b64: string)
    ensures b64 == Base64.Encode(bytes)
  {
    var binary := "";
    for i := 0 to |bytes|
      invariant |binary| == i
      invariant forall j :: 0 <= j < i ==> binary[j] as int == bytes[j]
    {
      binary := binary + [bytes[i] as char];
    }
    var codes := seq(|binary|, i requires 0 <= i < |binary| => binary[i] as int);
    assert codes == bytes;
    b64 := Btoa(binary).value;
  }

  /** base64ToArrayBuffer: atob, then each char code stored into a byte array
      (a Uint8Array store keeps the code modulo 256). `None` is atob's throw. */
  method Base64ToArrayBuffer(b64: string) returns (r: Option<seq<byte>>)
    ensures r == Base64.Decode(b64)
  {
    var binary := Atob(b64);
    if binary.None? {
      return None;
    }
    var text := binary.value;
    var bytes := new byte[|text|];
    for i := 0 to |text|
      invariant forall j :: 0 <= j < i ==> bytes[j] == (text[j] as int) % 256
    {
      bytes[i] := (text[i] as int) % 256;
    }
    ghost var decoded := Base64.Decode(b64).value;
    assert text == Binary(decoded);
    assert bytes[..] == decoded;
    r := Some(bytes[..]);
  }

  /** The byte loop and the char-code loop undo each other. */
  lemma AtobOfBtoa(bytes: seq<byte>)
    ensures Btoa(Binary(bytes)).Some?
    ensures Atob(Btoa(Binary(bytes)).value) == Some(Binary(bytes))
  {
    var binary := Binary(bytes);
    assert seq(|binary|, i requires 0 <= i < |binary| => binary[i] as int) == bytes;
    Base64.DecodeEncode(bytes);
  }

  // ---------------------------------------------------------------------------
  // String.prototype.split with a one-character separator.

  /** The pieces of `s` between occurrences of `sep`; never empty. */
  function Split(s: string, sep: char): (parts: seq<string>)
    ensures |parts| >= 1
    decreases |s|
  {
    if s == [] then [""]
    else
      var rest := Split(s[1..], sep);
      if s[0] == sep then [""] + rest else [[s[0]] + rest[0]] + rest[1..]
  }

  lemma {:induction false} SplitWithoutSeparator(s: string, sep: char)
    requires sep !in s
    ensures Split(s, sep) == [s]
    decreases |s|
  {
    if s != [] {
      SplitWithoutSeparator(s[1..], sep);
      assert [s[0]] + s[1..] == s;
    }
  }

  lemma {:induction false} SplitPrefix(a: string, t: string, sep: char)
    requires sep !in a
    ensures Split(a + t, sep) == [a + Split(t, sep)[0]] + Split(t, sep)[1..]
    decreases |a|
  {
    var st := Split(t, sep);
    if a != [] {
      assert (a + t)[1..] == a[1..] + t;
      assert (a + t)[0] == a[0] != sep;
      SplitPrefix(a[1..], t, sep);
      assert [a[0]] + (a[1..] + st[0]) == a + st[0];
    } else {
      assert a + t == t;
      assert a + st[0] == st[0];
      assert st == [st[0]] + st[1..];
    }
  }

  /** Joining two separator-free texts with the separator and splitting again
      gives exactly the two texts. */
  lemma SplitJoin(a: string, b: string, sep: char)
    requires sep !in a && sep !in b
    ensures Split(a + [sep] + b, sep) == [a, b]
  {
    SplitWithoutSeparator(b, sep);
    assert ([sep] + b)[1..] == b;
    assert Split([sep] + b, sep) == [""] + Split(b, sep);
    assert a + [sep] + b == a + ([sep] + b);
    SplitPrefix(a, [sep] + b, sep);
    assert a + "" == a;
  }

  // ---------------------------------------------------------------------------
  // The envelope.

  /** `encrypt`: base64 of the nonce, ':', base64 of the sealed text. */
  function EncryptText(k: Key, iv: Iv, data: string): (envelope: string)
    ensures ':' in envelope
  {
    Base64.Encode(iv) + ":" + Base64.Encode(Seal(k, iv, EncodeText(data)))
  }

  /** `decrypt`: '' when the split gives no two non-empty parts; '***' when a
      part is not base64 or the tag does not check; else the decoded text. */
  function DecryptText(k: Key, cipherText: string): (text: string) {
    var parts := Split(cipherText, ':');
    if |parts| < 2 || parts[0] == "" || parts[1] == "" then MalformedMarker
    else
      match (Base64.Decode(parts[0]), Base64.Decode(parts[1]))
      case (Some(iv), Some(content)) =>
        (match Open(k, iv, content)
         case Some(plain) => DecodeText(plain)
         case None => FailedMarker)
      case _ => FailedMarker
  }

  lemma NoSeparatorInBase64(b: seq<byte>)
    ensures ':' !in Base64.Encode(b)
  {
    var s := Base64.Encode(b);
    forall i | 0 <= i < |s| ensures s[i] != ':' {
      assert Base64.IsEncodedChar(s[i]);
    }
  }

  /** Splitting an envelope on ':' recovers exactly the two base64 parts. */
  lemma EnvelopeParts(k: Key, iv: Iv, data: string)
    ensures Split(EncryptText(k, iv, data), ':')
      == [Base64.Encode(iv), Base64.Encode(Seal(k, iv, EncodeText(data)))]
  {
    var a, b := Base64.Encode(iv), Base64.Encode(Seal(k, iv, EncodeText(data)));
    NoSeparatorInBase64(iv);
    NoSeparatorInBase64(Seal(k, iv, EncodeText(data)));
    SplitJoin(a, b, ':');
  }

  /** Decrypting an envelope under the key that made it gives the text back. */
  lemma DecryptEncryptText(k: Key, iv: Iv, data: string)
    ensures DecryptText(k, EncryptText(k, iv, data)) == data
  {
    var content := Seal(k, iv, EncodeText(data));
    EnvelopeParts(k, iv, data);
    Base64.DecodeEncode(iv);
    Base64.DecodeEncode(content);
    OpenSeal(k, iv, EncodeText(data));
    DecodeEncodeText(data);
  }

  /** Two envelopes drawn with different nonces differ, whatever they encrypt. */
  lemma FreshNonceFreshEnvelope(k: Key, iv1: Iv, iv2: Iv, d1: string, d2: string)
    requires iv1 != iv2
    ensures EncryptText(k, iv1, d1) != EncryptText(k, iv2, d2)
  {
    EnvelopeParts(k, iv1, d1);
    EnvelopeParts(k, iv2, d2);
    if EncryptText(k, iv1, d1) == EncryptText(k, iv2, d2) {
      Base64.EncodeInjective(iv1, iv2);
    }
  }

  /** A text with no ':' at all, or with an empty part before or after the
      first ':', decrypts to ''. */
  lemma DecryptMalformed(k: Key, cipherText: string)
    requires ':' !in cipherText
      || (|Split(cipherText, ':')| >= 2 && (Split(cipherText, ':')[0] == "" || Split(cipherText, ':')[1] == ""))
    ensures DecryptText(k, cipherText) == MalformedMarker
  {
    if ':' !in cipherText {
      SplitWithoutSeparator(cipherText, ':');
    }
  }

  // ---------------------------------------------------------------------------
  // The record codec.

  /** encryptTransaction: amount (as its decimal text) and description become
      envelopes under two fresh nonces; every other field is copied. */
  function EncryptRecord(k: Key, ivAmount: Iv, ivDescription: Iv, tx: Transaction): (e: EncryptedTransaction)
    ensures e.meta == tx.meta
    ensures DecryptText(k, e.amount) == NumberToString(tx.amount)
    ensures DecryptText(k, e.description) == tx.description
  {
    DecryptEncryptText(k, ivAmount, NumberToString(tx.amount));
    DecryptEncryptText(k, ivDescription, tx.description);
    EncryptedTransaction(tx.meta, EncryptText(k, ivAmount, NumberToString(tx.amount)),
      EncryptText(k, ivDescription, tx.description))
  }

  /** decryptTransaction on an encrypted row: `parseFloat(amount) || 0` and the
      decrypted description; every other field is copied. */
  function DecryptEncrypted(k: Key, e: EncryptedTransaction): (tx: Transaction)
    ensures tx.meta == e.meta
  {
    Transaction(e.meta, ParseFloatOrZero(DecryptText(k, e.amount)), DecryptText(k, e.description))
  }

  /** decryptTransaction on any row: a legacy row is returned as it is and
      needs no key. */
  function DecryptRecord(k: Option<Key>, rec: StoredTransaction): (tx: Transaction)
    requires rec.Encrypted? ==> k.Some?
    ensures tx.meta == rec.Meta()
    ensures rec.Legacy? ==> tx == rec.tx
  {
    match rec
    case Legacy(t) => t
    case Encrypted(e) => DecryptEncrypted(k.value, e)
  }

  /** Under the same key, decrypting an encrypted transaction restores it. */
  lemma RecordRoundTrip(k: Key, ivAmount: Iv, ivDescription: Iv, tx: Transaction)
    ensures DecryptRecord(Some(k), Encrypted(EncryptRecord(k, ivAmount, ivDescription, tx))) == tx
  {
    var e := EncryptRecord(k, ivAmount, ivDescription, tx);
    ParseFloatOfNumberToString(tx.amount);
    assert DecryptEncrypted(k, e).amount == tx.amount;
  }

  /** An amount envelope that is malformed or fails to authenticate degrades
      to the amount 0 and never to an error. */
  lemma DegradedAmountIsZero(k: Key, e: EncryptedTransaction)
    requires DecryptText(k, e.amount) in {MalformedMarker, FailedMarker}
    ensures DecryptEncrypted(k, e).amount == 0
  {
    ParseFloatOfMarkers();
  }

  // ---------------------------------------------------------------------------
  // The key lifecycle.

  /** What the browser does when the service needs a key: `generated` is the
      key generateKey resolves with (`None`: it rejected); `persisted` says
      whether exportKey and the key-store write both succeeded. */
  datatype KeyEnv = KeyEnv(generated: Option<Key>, persisted: bool)

  /** The in-memory key and the key-store slot. */
  datatype KeyState = KeyState(key: Option<Key>, slot: Option<string>)

  /** `if (storedKey)`: the slot holds a non-empty text. */
  predicate HasStoredKey(slot: Option<string>) {
    slot.Some? && slot.value != ""
  }

  /** init: import the stored key if there is one (a failed import leaves the
      key as it was); otherwise generate, keep and try to store a new key. */
  function InitStep(s: KeyState, env: KeyEnv): KeyState {
    if HasStoredKey(s.slot) then
      match ImportKey(s.slot.value)
      case Some(k) => KeyState(Some(k), s.slot)
      case None => s
    else
      match env.generated
      case None => s
      case Some(g) => KeyState(Some(g), if env.persisted then Some(ExportKey(g)) else s.slot)
  }

  /** ensureInitialized: run init only while there is no key. */
  function EnsureStep(s: KeyState, env: KeyEnv): KeyState {
    if s.key.None? then InitStep(s, env) else s
  }

  /** A stored key is imported, and the store is left as it is. */
  lemma InitImportsStoredKey(s: KeyState, env: KeyEnv, k: Key)
    requires s.slot == Some(ExportKey(k))
    ensures InitStep(s, env) == KeyState(Some(k), s.slot)
  {
    ImportExportKey(k);
    ExportKeyNonEmpty(k);
  }

  /** With nothing stored, init keeps the generated key and stores its export
      exactly when the export and the write succeed. */
  lemma InitGeneratesWhenNothingStored(s: KeyState, env: KeyEnv)
    requires !HasStoredKey(s.slot) && env.generated.Some?
    ensures InitStep(s, env).key == env.generated
    ensures InitStep(s, env).slot == if env.persisted then Some(ExportKey(env.generated.value)) else s.slot
  {
  }

  /** ensureInitialized ends without a key exactly when there was none and
      either the stored text does not import or nothing is stored and key
      generation failed; then the caller throws (fails closed). */
  lemma EnsureFailsClosed(s: KeyState, env: KeyEnv)
    ensures EnsureStep(s, env).key.None? <==>
      s.key.None? &&
      (if HasStoredKey(s.slot) then ImportKey(s.slot.value).None? else env.generated.None?)
  {
  }

  /** Once a key is held it is never replaced, and nothing is written. */
  lemma EnsureKeepsKey(s: KeyState, env: KeyEnv)
    requires s.key.Some?
    ensures EnsureStep(s, env) == s
  {
  }

  /** A key generated and stored by a first run is the key a second run
      imports: the second run generates nothing and ends in the same state. */
  lemma StoredKeySurvivesRestart(env1: KeyEnv, env2: KeyEnv, slot: Option<string>)
    requires !HasStoredKey(slot) && env1.generated.Some? && env1.persisted
    ensures var first := InitStep(KeyState(None, slot), env1);
      InitStep(KeyState(None, first.slot), env2) == first
  {
    var g := env1.generated.value;
    InitImportsStoredKey(KeyState(None, Some(ExportKey(g))), env2, g);
  }

  /** The service object: the in-memory key and the key-store slot. */
  class CryptoService {
    var key: Option<Key>
    var slot: Option<string>

    function State(): KeyState
      reads this
    {
      KeyState(key, slot)
    }

    /** The private constructor runs init once. */
    constructor (stored: Option<string>, env: KeyEnv)
      ensures State() == InitStep(KeyState(None, stored), env)
    {
      key := None;
      slot := stored;
      new;
      Init(env);
    }

    method Init(env: KeyEnv)
      modifies this
      ensures State() == InitStep(old(State()), env)
    {
      if slot.Some? && slot.value != "" {
        var imported := ImportKey(slot.value);
        if imported.Some? {
          key := imported;
        }
      } else if env.generated.Some? {
        key := env.generated;
        if env.persisted {
          slot := Some(ExportKey(env.generated.value));
        }
      }
    }

    /** Returns the key, or KeyUnavailable when it is still missing after one
        more init. */
    method EnsureInitialized(env: KeyEnv) returns (r: Result<Key>)
      modifies this
      ensures State() == EnsureStep(old(State()), env)
      ensures r == if key.Some? then Ok(key.value) else Err(KeyUnavailable)
    {
      if key.None? {
        Init(env);
      }
      if key.None? {
        return Err(KeyUnavailable);
      }
      return Ok(key.value);
    }

    method Encrypt(data: string, iv: Iv, env: KeyEnv) returns (r: Result<string>)
      modifies this
      ensures State() == EnsureStep(old(State()), env)
      ensures r == if key.Some? then Ok(EncryptText(key.value, iv, data)) else Err(KeyUnavailable)
    {
      var k :- EnsureInitialized(env);
      var encoded := EncodeText(data);
      var content := Seal(k, iv, encoded);
      var ivBase64 := ArrayBufferToBase64(iv);
      var contentBase64 := ArrayBufferToBase64(content);
      return Ok(ivBase64 + ":" + contentBase64);
    }

    method Decrypt(cipherText: string, env: KeyEnv) returns (r: Result<string>)
      modifies this
      ensures State() == EnsureStep(old(State()), env)
      ensures r == if key.Some? then Ok(DecryptText(key.value, cipherText)) else Err(KeyUnavailable)
    {
      var k :- EnsureInitialized(env);
      var parts := Split(cipherText, ':');
      if |parts| < 2 || parts[0] == "" || parts[1] == "" {
        return Ok(MalformedMarker);
      }
      var iv := Base64ToArrayBuffer(parts[0]);
      var content := Base64ToArrayBuffer(parts[1]);
      if iv.None? || content.None? {
        return Ok(FailedMarker);
      }
      var plain := Open(k, iv.value, content.value);
      if plain.None? {
        return Ok(FailedMarker);
      }
      return Ok(DecodeText(plain.value));
    }

    method EncryptTransaction(tx: Transaction, ivAmount: Iv, ivDescription: Iv, env: KeyEnv)
      returns (r: Result<EncryptedTransaction>)
      modifies this
      ensures State() == EnsureStep(old(State()), env)
      ensures r == if key.Some? then Ok(EncryptRecord(key.value, ivAmount, ivDescription, tx)) else Err(KeyUnavailable)
    {
      var amount :- Encrypt(NumberToString(tx.amount), ivAmount, env);
      var description := Encrypt(tx.description, ivDescription, env);
      return Ok(EncryptedTransaction(tx.meta, amount, description.value));
    }

    method DecryptTransaction(rec: StoredTransaction, env: KeyEnv) returns (r: Result<Transaction>)
      modifies this
      ensures State() == if rec.Legacy? then old(State()) else EnsureStep(old(State()), env)
      ensures r == if rec.Legacy? then Ok(rec.tx)
                   else if key.Some? then Ok(DecryptRecord(key, rec))
                   else Err(KeyUnavailable)
    {
      if rec.Legacy? {
        return Ok(rec.tx);
      }
      var e := rec.enc;
      var amount :- Decrypt(e.amount, env);
      var description := Decrypt(e.description, env);
      return Ok(Transaction(e.meta, ParseFloatOrZero(amount), description.value));
    }
  }

  /** The static `instance` slot behind CryptoService.getInstance. */
  class CryptoServiceSingleton {
    var instance: CryptoService?

    constructor ()
      ensures instance == null
    {
      instance := null;
    }

    /** Creates the service on the first call and returns that same object on
        every later call. */
    method GetInstance(stored: Option<string>, env: KeyEnv) returns (s: CryptoService)
      modifies this
      ensures old(instance) != null ==> s == old(instance)
      ensures old(instance) == null ==> fresh(s) && s.State() == InitStep(KeyState(None, stored), env)
      ensures instance == s
    {
      if instance == null {
        instance := new CryptoService(stored, env);
      }
      s := instance;
    }
  }
}
