/** Encrypted credentials and key rotation.

    A Fernet token is a datatype: it opens under exactly the key that made it, and two tokens of the
    same payload differ in their nonce.  Key derivation is injective in the secret and the salt.
 */
module KeyRotation {

  // ------------------------------------------------------------------ keys and tokens

  /** Malformed: bytes the Fernet constructor refuses. */
  datatype Key = Derived(secret: string, salt: string) | DevFallback | Malformed(raw: string)

  datatype Json = JObject(fields: map<string, Json>) | JText(text: string) | JNumber(n: int)

  datatype Plain = Document(json: Json) | NotJson

  datatype Blob = Token(key: Key, plain: Plain, nonce: nat) | NotAToken | NotAscii

  datatype Error = CredentialInvalid | InvalidToken | DecryptionFailed

  datatype Result = Ok(data: map<string, Json>) | Err(error: Error)

  /** What one key makes of a blob: a payload, InvalidToken, a payload that is no object, or any other
      exception. */
  datatype Opened = Data(fields: map<string, Json>) | WrongKey | NoObject | Broken

  function Open(key: Key, blob: Blob): Opened {
    if key.Malformed? || blob.NotAscii? then Broken
    else if blob.NotAToken? || blob.key != key then WrongKey
    else match blob.plain
      case NotJson => Broken
      case Document(json) => if json.JObject? then Data(json.fields) else NoObject
  }

  /** The decryption loop over the remaining keys; `failed` says whether last_error is set. */
  function TryKeys(keys: seq<Key>, blob: Blob, failed: bool): Result
    decreases |keys|
  {
    if keys == [] then Err(if failed then DecryptionFailed else InvalidToken)
    else match Open(keys[0], blob)
      case Data(fields) => Ok(fields)
      case NoObject => Err(CredentialInvalid)
      case WrongKey => TryKeys(keys[1..], blob, false)
      case Broken => TryKeys(keys[1..], blob, true)
  }

  function Encrypt(key: Key, data: map<string, Json>, nonce: nat): Blob {
    Token(key, Document(JObject(data)), nonce)
  }

  function CredentialsOf(r: Result): Result {
    if r.Err? then r
    else if "credentials" in r.data && r.data["credentials"].JObject? then Ok(r.data["credentials"].fields)
    else Err(CredentialInvalid)
  }

  function Wrap(credentials: map<string, Json>): map<string, Json> {
    map["v" := JNumber(1), "credentials" := JObject(credentials)]
  }

  class EncryptionService {
    const current: Key
    const previous: seq<Key>

    constructor (current: Key, previous: seq<Key>)
      ensures this.current == current && this.previous == previous
    {
      this.current := current;
      this.previous := previous;
    }

    method DecryptToken(blob: Blob) returns (r: Result)
      ensures r == TryKeys([current] + previous, blob, false)
    {
      var keys := [current] + previous;
      var failed := false;
      var i := 0;
      while i < |keys|
        invariant 0 <= i <= |keys|
        invariant TryKeys(keys, blob, false) == TryKeys(keys[i..], blob, failed)
      {
        assert keys[i..][1..] == keys[i + 1..];
        match Open(keys[i], blob) {
          case Data(fields) => return Ok(fields);
          case NoObject => return Err(CredentialInvalid);
          case WrongKey => failed := false;
          case Broken => failed := true;
        }
        i := i + 1;
      }
      r := Err(if failed then DecryptionFailed else InvalidToken);
    }

    method ReEncrypt(blob: Blob, nonce: nat) returns (r: Result, fresh': Blob)
      ensures r == TryKeys([current] + previous, blob, false)
      ensures fresh' == if r.Ok? then Encrypt(current, r.data, nonce) else blob
    {
      r := DecryptToken(blob);
      fresh' := if r.Ok? then Encrypt(current, r.data, nonce) else blob;
    }

    method DecryptCredentials(blob: Blob) returns (r: Result)
      ensures r == CredentialsOf(TryKeys([current] + previous, blob, false))
    {
      var data := DecryptToken(blob);
      if data.Err? {
        return data;
      }
      if "credentials" in data.data && data.data["credentials"].JObject? {
        return Ok(data.data["credentials"].fields);
      }
      r := Err(CredentialInvalid);
    }
  }

  // ---------------------------------------------------------------- what decryption means

  /** An attempt with this key ends in something else than an invalid token. */
  predicate BreaksUnder(key: Key, blob: Blob) {
    key.Malformed? || blob.NotAscii? || (blob.Token? && blob.key == key && blob.plain.NotJson?)
  }

  /** Decryption answers by membership: the payload exactly when the blob's own key is listed and well
      formed and the payload is an object; only the wording of a failure looks at the last key. */
  lemma {:induction false} DecryptionMeans(keys: seq<Key>, blob: Blob, failed: bool)
    ensures var r := TryKeys(keys, blob, failed);
            var opens := blob.Token? && blob.key in keys && !blob.key.Malformed?;
            && (forall data :: r == Ok(data) <==> opens && blob.plain == Document(JObject(data)))
            && (r == Err(CredentialInvalid) <==> opens && blob.plain.Document? && !blob.plain.json.JObject?)
            && (r == Err(DecryptionFailed) <==>
                  && !(opens && blob.plain.Document?)
                  && (if keys == [] then failed else BreaksUnder(keys[|keys| - 1], blob)))
    decreases |keys|
  {
    if keys != [] {
      var outcome := Open(keys[0], blob);
      if outcome.WrongKey? {
        DecryptionMeans(keys[1..], blob, false);
      } else if outcome.Broken? {
        DecryptionMeans(keys[1..], blob, true);
      } else {
        assert blob.key == keys[0];
      }
    }
  }

  /** The same failure up to its wording. */
  function Class(r: Result): Result {
    if r == Err(DecryptionFailed) then Err(InvalidToken) else r
  }

  /** What decryption returns does not depend on the order, or the repetition, of the keys. */
  lemma OrderIsIrrelevant(keys1: seq<Key>, keys2: seq<Key>, blob: Blob)
    requires forall k :: k in keys1 <==> k in keys2
    ensures Class(TryKeys(keys1, blob, false)) == Class(TryKeys(keys2, blob, false))
  {
    DecryptionMeans(keys1, blob, false);
    DecryptionMeans(keys2, blob, false);
    var r1, r2 := TryKeys(keys1, blob, false), TryKeys(keys2, blob, false);
    assert blob.Token? ==> (blob.key in keys1 <==> blob.key in keys2);
    if r1.Ok? {
      assert r2 == Ok(r1.data);
    } else {
      assert r1 == Err(CredentialInvalid) <==> r2 == Err(CredentialInvalid);
      assert r1.error.CredentialInvalid? || Class(r1) == Err(InvalidToken);
      assert r2.error.CredentialInvalid? || Class(r2) == Err(InvalidToken);
    }
  }

  /** The wording does: a malformed previous key shows only when it comes last. */
  lemma OrderShowsInWording(good: Key, bad: Key)
    requires !good.Malformed? && bad.Malformed?
    ensures TryKeys([good, bad], NotAToken, false) == Err(DecryptionFailed)
    ensures TryKeys([bad, good], NotAToken, false) == Err(InvalidToken)
  {
    assert [good, bad][1..] == [bad] && [bad, good][1..] == [good];
    assert [bad][1..] == [] && [good][1..] == [];
    assert TryKeys([bad], NotAToken, false) == TryKeys([], NotAToken, true);
    assert TryKeys([good], NotAToken, true) == TryKeys([], NotAToken, false);
  }

  /** Credentials come back exactly under key rings that list the key they were encrypted under. */
  lemma CredentialsRoundTripIff(keys: seq<Key>, key: Key, credentials: map<string, Json>, nonce: nat)
    requires !key.Malformed?
    ensures CredentialsOf(TryKeys(keys, Encrypt(key, Wrap(credentials), nonce), false)) == Ok(credentials)
            <==> key in keys
  {
    var blob := Encrypt(key, Wrap(credentials), nonce);
    DecryptionMeans(keys, blob, false);
    if key in keys {
      assert TryKeys(keys, blob, false) == Ok(Wrap(credentials));
    }
  }

  /** Credentials come out of a blob exactly when its own key is listed and well formed and its payload is an
      object with a credentials object; an object without one is invalid. */
  lemma CredentialsMean(keys: seq<Key>, blob: Blob, credentials: map<string, Json>)
    ensures CredentialsOf(TryKeys(keys, blob, false)) == Ok(credentials) <==>
              && blob.Token? && blob.key in keys && !blob.key.Malformed?
              && blob.plain.Document? && blob.plain.json.JObject?
              && "credentials" in blob.plain.json.fields
              && blob.plain.json.fields["credentials"] == JObject(credentials)
    ensures blob.Token? && blob.key in keys && !blob.key.Malformed?
            && blob.plain.Document? && blob.plain.json.JObject?
            && !("credentials" in blob.plain.json.fields && blob.plain.json.fields["credentials"].JObject?) ==>
              CredentialsOf(TryKeys(keys, blob, false)) == Err(CredentialInvalid)
  {
    DecryptionMeans(keys, blob, false);
    var r := TryKeys(keys, blob, false);
    if r.Ok? {
      assert blob.plain == Document(JObject(r.data));
    }
    if blob.Token? && blob.key in keys && !blob.key.Malformed? && blob.plain.Document? && blob.plain.json.JObject? {
      assert r == Ok(blob.plain.json.fields);
    }
  }

  // ------------------------------------------------------------------ rotating a store

  /** A key ring, the stored blobs, and what was last written to each row. */
  datatype Vault = Vault(
    current: Key, previous: seq<Key>, rows: map<nat, Blob>, written: map<nat, map<string, Json>>)

  function Ring(v: Vault): seq<Key> {
    [v.current] + v.previous
  }

  datatype Step =
    | Write(id: nat, data: map<string, Json>, nonce: nat)
    | Rotate(key: Key)
    | Reorder(previous: seq<Key>)
    | Migrate(id: nat, nonce: nat)
    | DropPrevious

  ghost predicate AllCurrent(v: Vault) {
    forall id :: id in v.rows ==> v.rows[id].Token? && v.rows[id].key == v.current
  }

  /** The documented procedure: the old key moves to the previous keys, which are dropped only when all
      rows are current. */
  ghost predicate Enabled(v: Vault, step: Step) {
    match step
    case Write(_, _, _) => true
    case Rotate(key) => !key.Malformed?
    case Reorder(previous) => forall k :: k in v.previous ==> k in previous
    case Migrate(id, _) => id in v.rows
    case DropPrevious => AllCurrent(v)
  }

  ghost function Apply(v: Vault, step: Step): Vault
    requires Enabled(v, step)
  {
    match step
    case Write(id, data, nonce) =>
      v.(rows := v.rows[id := Encrypt(v.current, data, nonce)], written := v.written[id := data])
    case Rotate(key) => v.(current := key, previous := [v.current] + v.previous)
    case Reorder(previous) => v.(previous := previous)
    case Migrate(id, nonce) =>
      var r := TryKeys(Ring(v), v.rows[id], false);
      if r.Ok? then v.(rows := v.rows[id := Encrypt(v.current, r.data, nonce)]) else v
    case DropPrevious => v.(previous := [])
  }

  ghost predicate LegalRun(v: Vault, steps: seq<Step>)
    decreases |steps|
  {
    steps != [] ==> Enabled(v, steps[0]) && LegalRun(Apply(v, steps[0]), steps[1..])
  }

  ghost function Run(v: Vault, steps: seq<Step>): Vault
    requires LegalRun(v, steps)
    decreases |steps|
  {
    if steps == [] then v else Run(Apply(v, steps[0]), steps[1..])
  }

  /** Every row decrypts to what was last written to it. */
  ghost predicate Readable(v: Vault) {
    && v.rows.Keys == v.written.Keys
    && !v.current.Malformed?
    && forall id :: id in v.rows ==> TryKeys(Ring(v), v.rows[id], false) == Ok(v.written[id])
  }

  predicate Listed(blob: Blob, ring: seq<Key>) {
    blob.Token? && blob.key in ring
  }

  /** Replacing the key ring keeps everything readable if and only if every row's own key is still
      listed. */
  lemma RingChangeSafeIff(v: Vault, current: Key, previous: seq<Key>)
    requires Readable(v) && !current.Malformed?
    ensures Readable(v.(current := current, previous := previous))
       <==> forall id :: id in v.rows ==> Listed(v.rows[id], [current] + previous)
  {
    forall id | id in v.rows
      ensures TryKeys([current] + previous, v.rows[id], false) == Ok(v.written[id])
         <==> Listed(v.rows[id], [current] + previous)
    {
      DecryptionMeans(Ring(v), v.rows[id], false);
      DecryptionMeans([current] + previous, v.rows[id], false);
      assert TryKeys(Ring(v), v.rows[id], false) == Ok(v.written[id]);
    }
  }

  lemma StepIsReadable(v: Vault, step: Step)
    requires Readable(v) && Enabled(v, step)
    ensures Readable(Apply(v, step))
  {
    var v' := Apply(v, step);
    forall id | id in v'.rows ensures TryKeys(Ring(v'), v'.rows[id], false) == Ok(v'.written[id]) {
      DecryptionMeans(Ring(v'), v'.rows[id], false);
      assert v'.current in Ring(v');
      if id in v.rows {
        DecryptionMeans(Ring(v), v.rows[id], false);
        assert TryKeys(Ring(v), v.rows[id], false) == Ok(v.written[id]);
      }
    }
  }

  /** Rotation safety: in every run of writes, rotations, re-orderings, re-encryptions and drops of the
      previous keys once all rows are current, every stored blob decrypts to the payload last written. */
  lemma {:induction false} EveryRunIsReadable(v: Vault, steps: seq<Step>)
    requires Readable(v) && LegalRun(v, steps)
    ensures Readable(Run(v, steps))
    decreases |steps|
  {
    if steps != [] {
      StepIsReadable(v, steps[0]);
      EveryRunIsReadable(Apply(v, steps[0]), steps[1..]);
    }
  }

  /** So every run of an empty store under a well-formed key keeps all it writes readable. */
  lemma EveryHistoryIsReadable(current: Key, previous: seq<Key>, steps: seq<Step>)
    requires !current.Malformed? && LegalRun(Vault(current, previous, map[], map[]), steps)
    ensures var v := Run(Vault(current, previous, map[], map[]), steps);
            && v.rows.Keys == v.written.Keys
            && forall id :: id in v.rows ==> TryKeys(Ring(v), v.rows[id], false) == Ok(v.written[id])
  {
    EveryRunIsReadable(Vault(current, previous, map[], map[]), steps);
  }

  ghost function MigrateAll(v: Vault, ids: seq<nat>, nonce: nat): Vault
    requires forall i :: 0 <= i < |ids| ==> ids[i] in v.rows
    decreases |ids|
  {
    if ids == [] then v else MigrateAll(Apply(v, Migrate(ids[0], nonce)), ids[1..], nonce)
  }

  /** Re-encrypting every row, in any order, makes all rows current without changing any payload, so
      that the previous keys can be dropped. */
  lemma {:induction false} MigrationCompletes(v: Vault, ids: seq<nat>, nonce: nat)
    requires Readable(v) && forall i :: 0 <= i < |ids| ==> ids[i] in v.rows
    ensures var after := MigrateAll(v, ids, nonce);
            && Readable(after) && after.written == v.written
            && after.current == v.current && after.previous == v.previous && after.rows.Keys == v.rows.Keys
            && (forall id :: id in v.rows && (id in ids || Listed(v.rows[id], [v.current])) ==>
                  after.rows[id].Token? && after.rows[id].key == v.current)
            && ((forall id :: id in v.rows ==> id in ids) ==> Enabled(after, DropPrevious))
    decreases |ids|
  {
    forall id | id in v.rows ensures v.rows[id].Token? {
      DecryptionMeans(Ring(v), v.rows[id], false);
      assert TryKeys(Ring(v), v.rows[id], false) == Ok(v.written[id]);
    }
    if ids != [] {
      var step := Migrate(ids[0], nonce);
      StepIsReadable(v, step);
      MigrationCompletes(Apply(v, step), ids[1..], nonce);
      assert forall id :: id in ids <==> id == ids[0] || id in ids[1..];
    }
  }

  // -------------------------------------------------------------- rotating the settings

  /** The characters that stripping a string removes from its ends. */
  const BLANKS :=
    "\t\n\U{0B}\U{0C}\r\U{1C}\U{1D}\U{1E}\U{1F} \U{85}\U{A0}\U{1680}\U{2000}\U{2001}\U{2002}\U{2003}\U{2004}"
    + "\U{2005}\U{2006}\U{2007}\U{2008}\U{2009}\U{200A}\U{2028}\U{2029}\U{202F}\U{205F}\U{3000}"

  function StripLeft(s: string): string
    decreases |s|
  {
    if s != "" && s[0] in BLANKS then StripLeft(s[1..]) else s
  }

  function StripRight(s: string): string
    decreases |s|
  {
    if s != "" && s[|s| - 1] in BLANKS then StripRight(s[..|s| - 1]) else s
  }

  function Strip(s: string): string {
    StripRight(StripLeft(s))
  }

  /** The parts between the commas, at least one. */
  function Split(s: string): (parts: seq<string>)
    ensures parts != []
    decreases |s|
  {
    if s == "" then [""]
    else
      var rest := Split(s[1..]);
      if s[0] == ',' then [""] + rest else [[s[0]] + rest[0]] + rest[1..]
  }

  /** The setting of the previous secrets, as its validator receives it: a text or a list. */
  datatype Previous = Text(text: string) | Items(items: seq<string>)

  /** The encryption settings as they are configured. */
  datatype Settings = Settings(secret: string, salt: string, previous: Previous, production: bool)

  function EffectiveSalt(s: Settings): string {
    if Strip(s.salt) == "" then "agentforge" else Strip(s.salt)
  }

  predicate Configured(s: Settings) {
    Strip(s.secret) != "" || !s.production
  }

  function CurrentKey(s: Settings): Key
    requires Configured(s)
  {
    if Strip(s.secret) == "" then DevFallback else Derived(Strip(s.secret), EffectiveSalt(s))
  }

  function StripAll(parts: seq<string>): seq<string> {
    seq(|parts|, i requires 0 <= i < |parts| => Strip(parts[i]))
  }

  /** A text is split at its commas and stripped; a list is taken as it is. */
  function ParsePrevious(p: Previous): seq<string> {
    match p
    case Text(text) => StripAll(Split(text))
    case Items(items) => items
  }

  /** Keys of the secrets that are not blank; the secrets themselves are not stripped here. */
  function PreviousKeys(secrets: seq<string>, salt: string): seq<Key>
    decreases |secrets|
  {
    if secrets == [] then []
    else if Strip(secrets[0]) == "" then PreviousKeys(secrets[1..], salt)
    else [Derived(secrets[0], salt)] + PreviousKeys(secrets[1..], salt)
  }

  lemma {:induction false} PreviousKeysAre(secrets: seq<string>, salt: string, key: Key)
    ensures key in PreviousKeys(secrets, salt)
       <==> key.Derived? && key.salt == salt && Strip(key.secret) != "" && key.secret in secrets
    decreases |secrets|
  {
    if secrets != [] {
      PreviousKeysAre(secrets[1..], salt, key);
      assert forall x :: x in secrets <==> x == secrets[0] || x in secrets[1..];
    }
  }

  function RingOf(s: Settings): seq<Key>
    requires Configured(s)
  {
    [CurrentKey(s)] + PreviousKeys(ParsePrevious(s.previous), EffectiveSalt(s))
  }

  /** The documented rotation of the settings: a new secret, with the old one put first among the
      previous ones, separated by a comma in a text. */
  function RotateSettings(s: Settings, secret: string, salt: string): Settings {
    s.(secret := secret, salt := salt, previous :=
      match s.previous
      case Text(text) => Text(s.secret + "," + text)
      case Items(items) => Items([s.secret] + items))
  }

  // ------------------------------------------------------- stripping and splitting

  predicate CommaFree(s: string) {
    ',' !in s
  }

  lemma {:induction false} StripLeftKeepsCommas(s: string)
    ensures ',' in StripLeft(s) <==> ',' in s
    ensures StripLeft(s) != "" ==> StripLeft(s)[0] !in BLANKS
    decreases |s|
  {
    if s != "" && s[0] in BLANKS {
      assert s == [s[0]] + s[1..];
      StripLeftKeepsCommas(s[1..]);
    }
  }

  lemma {:induction false} StripRightKeepsCommas(s: string)
    ensures ',' in StripRight(s) <==> ',' in s
    ensures StripRight(s) <= s
    ensures StripRight(s) != "" ==> StripRight(s)[|StripRight(s)| - 1] !in BLANKS
    decreases |s|
  {
    if s != "" && s[|s| - 1] in BLANKS {
      assert s == s[..|s| - 1] + [s[|s| - 1]];
      StripRightKeepsCommas(s[..|s| - 1]);
    }
  }

  /** Stripping removes no comma, and is done after one round. */
  lemma StripFacts(s: string)
    ensures CommaFree(Strip(s)) <==> CommaFree(s)
    ensures Strip(Strip(s)) == Strip(s)
  {
    StripLeftKeepsCommas(s);
    StripRightKeepsCommas(StripLeft(s));
  }

  lemma {:induction false} PartsAreCommaFree(s: string, part: string)
    requires part in Split(s)
    ensures CommaFree(part)
    decreases |s|
  {
    if s != "" {
      var rest := Split(s[1..]);
      if part in rest {
        PartsAreCommaFree(s[1..], part);
      } else if part != "" {
        assert part == [s[0]] + rest[0];
        PartsAreCommaFree(s[1..], rest[0]);
      }
    }
  }

  lemma {:induction false} SplitAtComma(a: string, b: string)
    ensures Split(a + "," + b) == Split(a) + Split(b)
    decreases |a|
  {
    var s := a + "," + b;
    if a == "" {
      assert s[1..] == b;
    } else {
      assert s[1..] == a[1..] + "," + b;
      SplitAtComma(a[1..], b);
    }
  }

  lemma {:induction false} CommaFreeIsOnePart(s: string)
    requires CommaFree(s)
    ensures Split(s) == [s]
    decreases |s|
  {
    if s != "" {
      assert s == [s[0]] + s[1..];
      CommaFreeIsOnePart(s[1..]);
    }
  }

  /** What the rotation adds to the parsed previous secrets: of a text, the parts of the old secret. */
  lemma RotatedPrevious(s: Settings, secret: string, salt: string)
    ensures ParsePrevious(RotateSettings(s, secret, salt).previous)
         == (if s.previous.Text? then StripAll(Split(s.secret)) else [s.secret]) + ParsePrevious(s.previous)
  {
    hide Strip;
    hide Split;
    if s.previous.Text? {
      SplitAtComma(s.secret, s.previous.text);
    }
  }

  /** A configured secret that the rotated setting still lists: in a text, one without a comma; in a list,
      one without blanks around it, or one whose stripped form is listed already. */
  predicate Relistable(s: Settings) {
    && Strip(s.secret) != ""
    && match s.previous
       case Text(_) => CommaFree(s.secret)
       case Items(items) => s.secret == Strip(s.secret) || Strip(s.secret) in items
  }

  lemma RelistableIff(s: Settings, secret: string, salt: string)
    requires Strip(s.secret) != ""
    ensures Strip(s.secret) in ParsePrevious(RotateSettings(s, secret, salt).previous) <==> Relistable(s)
  {
    var parsed := ParsePrevious(RotateSettings(s, secret, salt).previous);
    RotatedPrevious(s, secret, salt);
    StripFacts(s.secret);
    if s.previous.Text? {
      if CommaFree(s.secret) {
        CommaFreeIsOnePart(s.secret);
        assert parsed[0] == Strip(s.secret);
      } else {
        forall i | 0 <= i < |parsed| ensures CommaFree(parsed[i]) {
          var parts := if i < |Split(s.secret)| then s.secret else s.previous.text;
          var part := if i < |Split(s.secret)| then Split(s.secret)[i]
                      else Split(s.previous.text)[i - |Split(s.secret)|];
          PartsAreCommaFree(parts, part);
          StripFacts(part);
        }
      }
    }
  }

  /** After the documented rotation the new ring lists the key that was current if and only if the
      rotation does not change that key, or the salt in effect is unchanged and the old secret can be
      listed.  So rows written under the development fallback key, before a change of salt, or under a
      secret that contains a comma become unreadable. */
  lemma SettingsRotationKeepsKeyIff(s: Settings, secret: string, salt: string)
    requires Configured(s) && Configured(RotateSettings(s, secret, salt))
    ensures var rotated := RotateSettings(s, secret, salt);
            CurrentKey(s) in RingOf(rotated) <==>
              CurrentKey(rotated) == CurrentKey(s) || (EffectiveSalt(rotated) == EffectiveSalt(s) && Relistable(s))
  {
    var rotated := RotateSettings(s, secret, salt);
    PreviousKeysAre(ParsePrevious(rotated.previous), EffectiveSalt(rotated), CurrentKey(s));
    StripFacts(s.secret);
    if Strip(s.secret) != "" {
      RelistableIff(s, secret, salt);
    }
  }

  lemma PreviousKept(s: Settings, secret: string, salt: string)
    requires Configured(s) && Configured(RotateSettings(s, secret, salt))
    requires EffectiveSalt(RotateSettings(s, secret, salt)) == EffectiveSalt(s)
          || forall p :: p in ParsePrevious(s.previous) ==> Strip(p) == ""
    ensures forall key :: key in PreviousKeys(ParsePrevious(s.previous), EffectiveSalt(s)) ==>
              key in RingOf(RotateSettings(s, secret, salt))
  {
    var rotated := RotateSettings(s, secret, salt);
    var before, after := ParsePrevious(s.previous), ParsePrevious(rotated.previous);
    RotatedPrevious(s, secret, salt);
    forall key | key in PreviousKeys(before, EffectiveSalt(s)) ensures key in RingOf(rotated) {
      PreviousKeysAre(before, EffectiveSalt(s), key);
      PreviousKeysAre(after, EffectiveSalt(rotated), key);
    }
  }

  /** Under another salt no secret yields the same key. */
  lemma SaltLosesPrevious(before: seq<string>, after: seq<string>, salt: string, salt': string, key: Key)
    requires salt != salt'
    ensures key in PreviousKeys(before, salt) ==>
              key !in PreviousKeys(after, salt') && key.Derived? && key.salt != salt'
  {
    PreviousKeysAre(before, salt, key);
    PreviousKeysAre(after, salt', key);
  }

  /** And it keeps the whole ring if and only if it keeps that key, and the salt in effect is unchanged or
      there were no previous secrets. */
  lemma SettingsRotationKeepsRingIff(s: Settings, secret: string, salt: string)
    requires Configured(s) && Configured(RotateSettings(s, secret, salt))
    ensures var rotated := RotateSettings(s, secret, salt);
            (forall key :: key in RingOf(s) ==> key in RingOf(rotated)) <==>
              && (CurrentKey(rotated) == CurrentKey(s) || (EffectiveSalt(rotated) == EffectiveSalt(s) && Relistable(s)))
              && (EffectiveSalt(rotated) == EffectiveSalt(s)
                  || forall p :: p in ParsePrevious(s.previous) ==> Strip(p) == "")
  {
    var rotated := RotateSettings(s, secret, salt);
    SettingsRotationKeepsKeyIff(s, secret, salt);
    hide Strip;
    hide PreviousKeys;
    hide ParsePrevious;
    hide Relistable;
    hide RotateSettings;
    if EffectiveSalt(rotated) == EffectiveSalt(s) || forall p :: p in ParsePrevious(s.previous) ==> Strip(p) == "" {
      PreviousKept(s, secret, salt);
    } else {
      var p :| p in ParsePrevious(s.previous) && Strip(p) != "";
      var key := Derived(p, EffectiveSalt(s));
      PreviousKeysAre(ParsePrevious(s.previous), EffectiveSalt(s), key);
      SaltLosesPrevious(ParsePrevious(s.previous), ParsePrevious(rotated.previous), EffectiveSalt(s),
                        EffectiveSalt(rotated), key);
      assert key in RingOf(s) && key !in RingOf(rotated);
    }
    assert CurrentKey(s) in RingOf(s);
  }

  // -------------------------------------------------------------- the whole procedure

  ghost predicate NeverWritten(steps: seq<Step>, id: nat) {
    forall i :: 0 <= i < |steps| ==> !(steps[i].Write? && steps[i].id == id)
  }

  lemma {:induction false} WrittenStays(v: Vault, steps: seq<Step>, id: nat)
    requires LegalRun(v, steps) && NeverWritten(steps, id) && id in v.written
    ensures id in Run(v, steps).written && Run(v, steps).written[id] == v.written[id]
    decreases |steps|
  {
    if steps != [] {
      assert forall i :: 0 <= i < |steps[1..]| ==> steps[1..][i] == steps[i + 1];
      WrittenStays(Apply(v, steps[0]), steps[1..], id);
    }
  }

  /** What is written is read back until it is written again: in every run of other writes, rotations, re-orderings,
      re-encryptions and drops. */
  lemma WrittenIsReadBack(v: Vault, id: nat, data: map<string, Json>, nonce: nat, steps: seq<Step>)
    requires Readable(v) && LegalRun(Apply(v, Write(id, data, nonce)), steps) && NeverWritten(steps, id)
    ensures var after := Run(Apply(v, Write(id, data, nonce)), steps);
            id in after.rows && TryKeys(Ring(after), after.rows[id], false) == Ok(data)
  {
    var written := Apply(v, Write(id, data, nonce));
    StepIsReadable(v, Write(id, data, nonce));
    EveryRunIsReadable(written, steps);
    WrittenStays(written, steps, id);
  }

  /** The documented procedure from end to end: rotate to a new key, re-encrypt every row, drop the previous keys.
      Afterwards the ring is the new key alone, every row is encrypted under it, and every payload is what
      it was. */
  lemma RotationCompletes(v: Vault, key: Key, ids: seq<nat>, nonce: nat)
    requires Readable(v) && !key.Malformed?
    requires forall id :: id in v.rows <==> id in ids
    ensures var migrated := MigrateAll(Apply(v, Rotate(key)), ids, nonce);
            && Enabled(migrated, DropPrevious)
            && var after := Apply(migrated, DropPrevious);
               && Ring(after) == [key]
               && after.rows.Keys == v.rows.Keys
               && forall id :: id in v.rows ==>
                    && after.rows[id].Token? && after.rows[id].key == key
                    && TryKeys([key], after.rows[id], false) == TryKeys(Ring(v), v.rows[id], false)
  {
    var rotated := Apply(v, Rotate(key));
    StepIsReadable(v, Rotate(key));
    MigrationCompletes(rotated, ids, nonce);
    var migrated := MigrateAll(rotated, ids, nonce);
    StepIsReadable(migrated, DropPrevious);
    var after := Apply(migrated, DropPrevious);
    forall id | id in v.rows
      ensures TryKeys([key], after.rows[id], false) == TryKeys(Ring(v), v.rows[id], false)
    {
      assert TryKeys(Ring(v), v.rows[id], false) == Ok(v.written[id]);
      assert TryKeys(Ring(after), after.rows[id], false) == Ok(after.written[id]);
    }
  }

  // ---------------------------------------------------------- what the settings stand for

  /** The parts of a text, with commas between them. */
  function Join(parts: seq<string>): string
    requires parts != []
    decreases |parts|
  {
    if |parts| == 1 then parts[0] else parts[0] + "," + Join(parts[1..])
  }

  lemma {:induction false} SplitJoins(s: string)
    ensures Join(Split(s)) == s
    decreases |s|
  {
    if s != "" {
      SplitJoins(s[1..]);
      var rest := Split(s[1..]);
      assert s == [s[0]] + s[1..];
      if s[0] == ',' {
        assert ([""] + rest)[1..] == rest;
      } else if |rest| > 1 {
        assert ([[s[0]] + rest[0]] + rest[1..])[1..] == rest[1..];
        assert [s[0]] + (rest[0] + "," + Join(rest[1..])) == [s[0]] + rest[0] + "," + Join(rest[1..]);
      }
    }
  }

  ghost predicate AllBlank(s: string) {
    forall i :: 0 <= i < |s| ==> s[i] in BLANKS
  }

  lemma {:induction false} StripLeftRemoves(s: string) returns (left: string)
    ensures s == left + StripLeft(s) && AllBlank(left)
    decreases |s|
  {
    if s != "" && s[0] in BLANKS {
      var rest, stripped := s[1..], StripLeft(s);
      var more := StripLeftRemoves(rest);
      assert stripped == StripLeft(rest);
      hide StripLeft;
      left := [s[0]] + more;
      calc {
        s;
        [s[0]] + rest;
        [s[0]] + (more + stripped);
        left + stripped;
      }
    } else {
      left := "";
    }
  }

  lemma {:induction false} StripRightRemoves(s: string) returns (right: string)
    ensures s == StripRight(s) + right && AllBlank(right)
    decreases |s|
  {
    if s != "" && s[|s| - 1] in BLANKS {
      var init, last, stripped := s[..|s| - 1], s[|s| - 1], StripRight(s);
      var more := StripRightRemoves(init);
      assert stripped == StripRight(init);
      hide StripRight;
      right := more + [last];
      calc {
        s;
        init + [last];
        (stripped + more) + [last];
        stripped + right;
      }
    } else {
      right := "";
    }
  }

  /** Stripping removes blanks at both ends, all of them, and nothing else. */
  lemma StripRemovesBlanks(s: string) returns (left: string, right: string)
    ensures s == left + Strip(s) + right && AllBlank(left) && AllBlank(right)
    ensures Strip(s) != "" ==> Strip(s)[0] !in BLANKS && Strip(s)[|Strip(s)| - 1] !in BLANKS
  {
    var t := StripLeft(s);
    left := StripLeftRemoves(s);
    right := StripRightRemoves(t);
    StripLeftKeepsCommas(s);
    StripRightKeepsCommas(t);
    hide StripLeft;
    hide StripRight;
    assert Strip(s) == StripRight(t) && s == left + t && t == Strip(s) + right;
    assert left + (Strip(s) + right) == left + Strip(s) + right;
    if Strip(s) != "" {
      assert Strip(s)[0] == t[0];
    }
  }

  /** Which settings stand for the same current key: two blank secrets, or secrets and salts that are the same up to
      surrounding blanks, a blank salt standing for "agentforge". */
  lemma CurrentKeyIff(s1: Settings, s2: Settings)
    requires Configured(s1) && Configured(s2)
    ensures CurrentKey(s1) == CurrentKey(s2) <==>
              Strip(s1.secret) == Strip(s2.secret)
              && (Strip(s1.secret) == ""
                  || (if Strip(s1.salt) == "" then "agentforge" else Strip(s1.salt))
                     == (if Strip(s2.salt) == "" then "agentforge" else Strip(s2.salt)))
  {
  }
}
