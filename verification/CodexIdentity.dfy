/**
  Identities presented upstream for a Codex connection, and the system-managed random seed they
  are derived from. The digest function is a parameter, and so is the fresh random UUID.
 */
module CodexIdentity {
  import opened Wrappers
  import opened Text

  /** A stored value: a string, or anything else. */
  datatype Value = Str(s: string) | Other

  type Data = map<string, Value>

  datatype Credentials = Credentials(accessToken: Option<Value>, refreshToken: Option<Value>)

  type Byte = b: int | 0 <= b < 256

  /** A SHA-256 digest. */
  type Digest = d: seq<Byte> | |d| == 32 witness seq(32, _ => 0)

  const SEED_KEY := "codexFingerprintSeed"
  const MODE_KEY := "codexFingerprintMode"
  const LEGACY_MODE_KEY := "codex_fingerprint_mode"
  const INSTALLATION_KEY := "codexInstallationId"
  const MODES := ["off", "device", "session", "full"]

  const INSTALLATION_SALT := "omniroute-codex-installation"
  const SESSION_PREFIX := "omniroute:codex-session-id:v1:"
  const THREAD_PREFIX := "omniroute:codex-thread-id:v1:"
  const INSTALLATION_PREFIX_V2 := "omniroute:codex-installation:v2:"
  const SESSION_PREFIX_V2 := "omniroute:codex-session-id:v2:"
  const THREAD_PREFIX_V2 := "omniroute:codex-thread-id:v2:"

  // ---------------------------------------------------------------- UUIDs

  predicate IsHex(c: char) {
    '0' <= c <= '9' || 'a' <= c <= 'f' || 'A' <= c <= 'F'
  }

  /** 8-4-4-4-12 hexadecimal digits, version 1 to 5, variant 8, 9, a or b, in any case. */
  predicate IsUuid(s: string) {
    && |s| == 36
    && (forall i :: 0 <= i < 36 ==> if i in {8, 13, 18, 23} then s[i] == '-' else IsHex(s[i]))
    && '1' <= s[14] <= '5'
    && s[19] in {'8', '9', 'a', 'b', 'A', 'B'}
  }

  function Field(data: Option<Data>, key: string): Option<Value> {
    if data.Some? && key in data.value then Some(data.value[key]) else None
  }

  function NormalizeUuid(v: Option<Value>): (r: Option<string>)
    ensures r.Some? ==> IsUuid(r.value)
  {
    if v.Some? && v.value.Str? && IsUuid(Trim(v.value.s)) then Some(Trim(v.value.s)) else None
  }

  function NonEmptyString(v: Option<Value>): Option<string> {
    if v.Some? && v.value.Str? && Trim(v.value.s) != "" then Some(Trim(v.value.s)) else None
  }

  function Or(a: Option<string>, b: Option<string>): Option<string> {
    if a.Some? then a else b
  }

  /** Two lower-case digits a byte. */
  function Hex(bytes: seq<Byte>): (r: string)
    ensures |r| == 2 * |bytes|
    ensures forall i :: 0 <= i < |r| ==> IsHex(r[i]) && !IsSpace(r[i])
  {
    if bytes == [] then []
    else [HexDigit(bytes[0] / 16), HexDigit(bytes[0] % 16)] + Hex(bytes[1..])
  }

  /** `(b & 0x0f) | 0x40` and `(b & 0x3f) | 0x80`: the version and variant bits of a byte. */
  function VersionByte(b: Byte): Byte {
    b % 16 + 64
  }

  function VariantByte(b: Byte): Byte {
    b % 64 + 128
  }

  /** The first sixteen bytes with version 4 and the RFC variant stamped in. */
  function Stamped(d: Digest): (b: seq<Byte>)
    ensures |b| == 16 && b[6] / 16 == 4 && 8 <= b[8] / 16 <= 11
  {
    d[..6] + [VersionByte(d[6]), d[7], VariantByte(d[8])] + d[9..16]
  }

  function Dashed(a: string, b: string, c: string, d: string, e: string): string {
    a + "-" + b + "-" + c + "-" + d + "-" + e
  }

  function DeriveStableUuid(seed: string, hash: string -> Digest): string {
    var b := Stamped(hash(seed));
    Dashed(Hex(b[0..4]), Hex(b[4..6]), Hex(b[6..8]), Hex(b[8..10]), Hex(b[10..16]))
  }

  function LegacyInstallationUuid(value: string, hash: string -> Digest): string {
    var h := Hex(hash(value));
    Dashed(h[0..8], h[8..12], "4" + h[13..16], "a" + h[17..20], h[20..32])
  }

  // ---------------------------------------------------------------- derived identities

  function LegacySource(data: Option<Data>): Option<string> {
    Or(NonEmptyString(Field(data, "workspaceId")),
       Or(NonEmptyString(Field(data, "accountId")), NonEmptyString(Field(data, "email"))))
  }

  function AccountSeed(data: Option<Data>, accountKey: Option<string>): string {
    var key := if accountKey.Some? then NonEmptyString(Some(Str(accountKey.value))) else None;
    var source := Or(key, Or(NonEmptyString(Field(data, "connectionId")), LegacySource(data)));
    if source.Some? then source.value else "default"
  }

  function FingerprintSeed(data: Option<Data>): Option<string> {
    NormalizeUuid(Field(data, SEED_KEY))
  }

  function InstallationId(data: Option<Data>, accountKey: Option<string>, hash: string -> Digest): string {
    var explicit, seed := NormalizeUuid(Field(data, INSTALLATION_KEY)), FingerprintSeed(data);
    if explicit.Some? then explicit.value
    else if seed.Some? then DeriveStableUuid(INSTALLATION_PREFIX_V2 + seed.value, hash)
    else
      var source := LegacySource(data);
      if source.Some? then LegacyInstallationUuid(INSTALLATION_SALT + ":" + source.value, hash)
      else DeriveStableUuid(INSTALLATION_SALT + ":" + AccountSeed(data, accountKey), hash)
  }

  function ConvergedSessionId(data: Option<Data>, accountKey: Option<string>, hash: string -> Digest): string {
    var seed := FingerprintSeed(data);
    if seed.Some? then DeriveStableUuid(SESSION_PREFIX_V2 + seed.value, hash)
    else DeriveStableUuid(SESSION_PREFIX + AccountSeed(data, accountKey), hash)
  }

  function ConvergedThreadId(
    clientSessionId: Option<string>, data: Option<Data>, accountKey: Option<string>, hash: string -> Digest): string
  {
    if clientSessionId == None || Trim(clientSessionId.value) == "" then ""
    else
      var seed := FingerprintSeed(data);
      if seed.Some? then DeriveStableUuid(THREAD_PREFIX_V2 + seed.value + ":" + clientSessionId.value, hash)
      else DeriveStableUuid(THREAD_PREFIX + AccountSeed(data, accountKey) + ":" + clientSessionId.value, hash)
  }

  // ---------------------------------------------------------------- the persisted seed

  predicate IsOAuth(credentials: Option<Credentials>) {
    credentials.Some? &&
    (NonEmptyString(credentials.value.accessToken).Some? || NonEmptyString(credentials.value.refreshToken).Some?)
  }

  /** The convergence mode; anything unknown means "session". */
  function Mode(data: Data, lower: string -> string): string {
    var raw := Or(NonEmptyString(Field(Some(data), MODE_KEY)), NonEmptyString(Field(Some(data), LEGACY_MODE_KEY)));
    var mode := lower(if raw.Some? then raw.value else "");
    if mode in MODES then mode else "session"
  }

  predicate ModeRequiresSeed(mode: string) {
    mode == "device" || mode == "session" || mode == "full"
  }

  function NonEmpty(data: Data): Option<Data> {
    if data == map[] then None else Some(data)
  }

  /** What a save stores, given what the client sent and what was stored before. */
  function EnsureSeed(
    data: Option<Data>, credentials: Option<Credentials>, existing: Option<Data>, newSeed: string,
    lower: string -> string): Option<Data>
  {
    var psd := (if data.Some? then data.value else map[]) - {SEED_KEY};
    if !IsOAuth(credentials) then NonEmpty(psd)
    else
      var seed := FingerprintSeed(existing);
      if seed.Some? then Some(psd[SEED_KEY := Str(seed.value)])
      else if ModeRequiresSeed(Mode(psd, lower)) then Some(psd[SEED_KEY := Str(newSeed)])
      else NonEmpty(psd)
  }

  // ---------------------------------------------------------------- identities are valid UUIDs

  lemma UuidsTrimToThemselves(s: string)
    requires IsUuid(s)
    ensures NormalizeUuid(Some(Str(s))) == Some(s)
  {
    TrimShape(s);
  }

  /** A value is accepted as a UUID exactly when it is a string that is one with blanks around it. */
  lemma NormalizeUuidMeaning(v: Option<Value>, u: string)
    ensures NormalizeUuid(v) == Some(u) <==> v.Some? && v.value.Str? && IsUuid(u) && Wraps(v.value.s, u)
  {
    if v.Some? && v.value.Str? {
      TrimMeaning(v.value.s, u);
    }
  }

  predicate AllHex(s: string) {
    forall i :: 0 <= i < |s| ==> IsHex(s[i])
  }

  lemma HexMeaning(c: char)
    ensures IsHex(c) <==> c in "0123456789abcdefABCDEF"
  {
    var digits := "0123456789abcdefABCDEF";
    if '0' <= c <= '9' {
      assert digits[c as int - 48] == c;
    } else if 'a' <= c <= 'f' {
      assert digits[c as int - 87] == c;
    } else if 'A' <= c <= 'F' {
      assert digits[c as int - 49] == c;
    }
  }

  lemma FiveGroups(a: string, b: string, c: string, d: string, e: string)
    requires |a| == 8 && |b| == |c| == |d| == 4 && |e| == 12
    requires AllHex(a) && AllHex(b) && AllHex(c) && AllHex(d) && AllHex(e)
    requires '1' <= c[0] <= '5' && d[0] in {'8', '9', 'a', 'b', 'A', 'B'}
    ensures IsUuid(Dashed(a, b, c, d, e))
  {
  }

  /** Five groups of hexadecimal digits, with a version from 1 to 5 and a variant from 8 to b. */
  ghost predicate Groups(a: string, b: string, c: string, d: string, e: string) {
    && |a| == 8 && |b| == |c| == |d| == 4 && |e| == 12
    && AllHex(a) && AllHex(b) && AllHex(c) && AllHex(d) && AllHex(e)
    && '1' <= c[0] <= '5' && d[0] in {'8', '9', 'a', 'b', 'A', 'B'}
  }

  /** The validator's pattern, group by group. */
  lemma UuidGroups(s: string)
    ensures IsUuid(s) <==> exists a, b, c, d, e :: Groups(a, b, c, d, e) && s == Dashed(a, b, c, d, e)
  {
    if IsUuid(s) {
      var a, b, c, d, e := s[0..8], s[9..13], s[14..18], s[19..23], s[24..36];
      assert AllHex(a) && AllHex(b) && AllHex(c) && AllHex(d) && AllHex(e);
      assert Groups(a, b, c, d, e) && s == Dashed(a, b, c, d, e);
    }
    if a, b, c, d, e :| Groups(a, b, c, d, e) && s == Dashed(a, b, c, d, e) {
      FiveGroups(a, b, c, d, e);
    }
  }

  lemma HexStart(bytes: seq<Byte>)
    requires bytes != []
    ensures Hex(bytes)[0] == HexDigit(bytes[0] / 16)
  {
  }

  /** For every digest the derived identity is a version 4 UUID. */
  lemma DerivedIsUuid(seed: string, hash: string -> Digest)
    ensures IsUuid(DeriveStableUuid(seed, hash)) && DeriveStableUuid(seed, hash)[14] == '4'
  {
    var b := Stamped(hash(seed));
    HexStart(b[6..8]);
    HexStart(b[8..10]);
    FiveGroups(Hex(b[0..4]), Hex(b[4..6]), Hex(b[6..8]), Hex(b[8..10]), Hex(b[10..16]));
  }

  /** So is the one in the historical layout. */
  lemma LegacyIsUuid(value: string, hash: string -> Digest)
    ensures IsUuid(LegacyInstallationUuid(value, hash)) && LegacyInstallationUuid(value, hash)[14] == '4'
  {
    var h := Hex(hash(value));
    FiveGroups(h[0..8], h[8..12], "4" + h[13..16], "a" + h[17..20], h[20..32]);
  }

  /** The hexadecimal digits of a UUID, without the dashes. */
  function Digits(uuid: string): string
    requires |uuid| == 36
  {
    uuid[0..8] + uuid[9..13] + uuid[14..18] + uuid[19..23] + uuid[24..36]
  }

  lemma DashedDigits(a: string, b: string, c: string, d: string, e: string)
    requires |a| == 8 && |b| == |c| == |d| == 4 && |e| == 12
    ensures |Dashed(a, b, c, d, e)| == 36 && Digits(Dashed(a, b, c, d, e)) == a + b + c + d + e
  {
    var u := Dashed(a, b, c, d, e);
    assert u[0..8] == a && u[9..13] == b && u[14..18] == c && u[19..23] == d && u[24..36] == e;
  }

  lemma {:induction false} HexAppend(a: seq<Byte>, b: seq<Byte>)
    ensures Hex(a + b) == Hex(a) + Hex(b)
  {
    if a == [] {
      assert a + b == b;
    } else {
      assert (a + b)[1..] == a[1..] + b;
      HexAppend(a[1..], b);
    }
  }

  /** The two lower-case digits of each byte stand in its place. */
  lemma {:induction false} HexAt(bytes: seq<Byte>, i: nat)
    requires i < |bytes|
    ensures Hex(bytes)[2 * i] == "0123456789abcdef"[bytes[i] / 16]
    ensures Hex(bytes)[2 * i + 1] == "0123456789abcdef"[bytes[i] % 16]
  {
    DigitMeaning(bytes[0] / 16);
    DigitMeaning(bytes[0] % 16);
    if i > 0 {
      HexAt(bytes[1..], i - 1);
    }
  }

  lemma DigitMeaning(n: nat)
    requires n < 16
    ensures HexDigit(n) == "0123456789abcdef"[n]
  {
  }

  /** The digits of the first sixteen digest bytes, with the version written over one and two bits of the variant over another. */
  ghost function StampedDigits(d: Digest): string {
    Hex(d)[..32][12 := '4'][16 := "89ab"[d[8] / 16 % 4]]
  }

  lemma StampedByte(d: Digest, i: nat)
    requires i < 16
    ensures Stamped(d)[i] / 16 == if i == 6 then 4 else if i == 8 then 8 + d[8] / 16 % 4 else d[i] / 16
    ensures Stamped(d)[i] % 16 == d[i] % 16
  {
    if i == 6 {
      VersionBits(d[6]);
    } else if i == 8 {
      VariantBits(d[8]);
    } else {
      assert Stamped(d)[i] == d[i];
    }
  }

  lemma VersionBits(b: Byte)
    ensures VersionByte(b) / 16 == 4 && VersionByte(b) % 16 == b % 16
  {
  }

  lemma VariantBits(b: Byte)
    ensures VariantByte(b) / 16 == 8 + b / 16 % 4 && VariantByte(b) % 16 == b % 16
  {
    var quarter, high, low := b / 64, b % 64 / 16, b % 64 % 16;
    assert b == 16 * (4 * quarter + high) + low;
    Nibbles(b, 4 * quarter + high, low);
    Nibbles(VariantByte(b), 8 + high, low);
    assert (4 * quarter + high) % 4 == high;
  }

  lemma Nibbles(b: int, high: int, low: int)
    requires b == 16 * high + low && 0 <= low < 16
    ensures b / 16 == high && b % 16 == low
  {
  }

  lemma VariantDigit(n: nat)
    requires n < 4
    ensures "0123456789abcdef"[8 + n] == "89ab"[n]
  {
  }

  lemma StampedMeaningAt(d: Digest, i: nat)
    requires i < 16
    ensures Hex(Stamped(d))[2 * i] == StampedDigits(d)[2 * i]
    ensures Hex(Stamped(d))[2 * i + 1] == StampedDigits(d)[2 * i + 1]
  {
    HexAt(Stamped(d), i);
    HexAt(d, i);
    StampedByte(d, i);
    VariantDigit(d[8] / 16 % 4);
  }

  lemma StampedMeaning(d: Digest)
    ensures Hex(Stamped(d)) == StampedDigits(d)
  {
    forall k | 0 <= k < 32 ensures Hex(Stamped(d))[k] == StampedDigits(d)[k] {
      StampedMeaningAt(d, k / 2);
      assert k == 2 * (k / 2) || k == 2 * (k / 2) + 1;
    }
  }

  /** The derived identity spells out the first sixteen digest bytes, in order, stamped. */
  lemma DerivedSpellsDigest(seed: string, hash: string -> Digest)
    ensures |DeriveStableUuid(seed, hash)| == 36
    ensures Digits(DeriveStableUuid(seed, hash)) == StampedDigits(hash(seed))
  {
    StampedMeaning(hash(seed));
    DerivedSpellsStamped(seed, hash);
  }

  lemma DerivedSpellsStamped(seed: string, hash: string -> Digest)
    ensures |DeriveStableUuid(seed, hash)| == 36
    ensures Digits(DeriveStableUuid(seed, hash)) == Hex(Stamped(hash(seed)))
  {
    var b := Stamped(hash(seed));
    DashedDigits(Hex(b[0..4]), Hex(b[4..6]), Hex(b[6..8]), Hex(b[8..10]), Hex(b[10..16]));
    HexAppend(b[0..4], b[4..6]);
    HexAppend(b[0..6], b[6..8]);
    HexAppend(b[0..8], b[8..10]);
    HexAppend(b[0..10], b[10..16]);
    assert b[0..4] + b[4..6] == b[0..6] && b[0..6] + b[6..8] == b[0..8];
    assert b[0..8] + b[8..10] == b[0..10] && b[0..10] + b[10..16] == b;
  }

  /** The historical layout spells out the same digits with '4' and 'a' written over two of them. */
  lemma LegacySpellsDigest(value: string, hash: string -> Digest)
    ensures |LegacyInstallationUuid(value, hash)| == 36
    ensures Digits(LegacyInstallationUuid(value, hash)) == Hex(hash(value))[..32][12 := '4'][16 := 'a']
  {
    var h := Hex(hash(value));
    DashedDigits(h[0..8], h[8..12], "4" + h[13..16], "a" + h[17..20], h[20..32]);
  }

  lemma InstallationIdIsUuid(data: Option<Data>, accountKey: Option<string>, hash: string -> Digest)
    ensures IsUuid(InstallationId(data, accountKey, hash))
  {
    var explicit, seed := NormalizeUuid(Field(data, INSTALLATION_KEY)), FingerprintSeed(data);
    if explicit == None {
      if seed.Some? {
        DerivedIsUuid(INSTALLATION_PREFIX_V2 + seed.value, hash);
      } else {
        var source := LegacySource(data);
        if source.Some? {
          LegacyIsUuid(INSTALLATION_SALT + ":" + source.value, hash);
        } else {
          DerivedIsUuid(INSTALLATION_SALT + ":" + AccountSeed(data, accountKey), hash);
        }
      }
    }
  }

  /** Every installation id is a UUID, and giving it back as the explicit one is a fixed point. */
  lemma InstallationIdFixedPoint(data: Option<Data>, accountKey: Option<string>, other: Data, key: Option<string>, hash: string -> Digest)
    ensures
      var id := InstallationId(data, accountKey, hash);
      IsUuid(id) && InstallationId(Some(other[INSTALLATION_KEY := Str(id)]), key, hash) == id
  {
    var id := InstallationId(data, accountKey, hash);
    InstallationIdIsUuid(data, accountKey, hash);
    UuidsTrimToThemselves(id);
    assert Field(Some(other[INSTALLATION_KEY := Str(id)]), INSTALLATION_KEY) == Some(Str(id));
  }

  /** The value is a string and not blank. */
  ghost predicate Written(v: Option<Value>) {
    v.Some? && v.value.Str? && exists c :: c in v.value.s && !IsSpace(c)
  }

  lemma WrittenMeaning(v: Option<Value>)
    ensures NonEmptyString(v) == if Written(v) then Some(Trim(v.value.s)) else None
  {
    if v.Some? && v.value.Str? {
      var text := v.value.s;
      TrimMeaning(text, Trim(text));
      if Trim(text) == "" {
        TrimEmpty(text);
      } else {
        TrimShape(text);
        assert Trim(text)[0] in Trim(text);
      }
    }
  }

  ghost function FirstWritten(values: seq<Option<Value>>, otherwise: string): string {
    if values == [] then otherwise
    else if Written(values[0]) then Trim(values[0].value.s)
    else FirstWritten(values[1..], otherwise)
  }

  lemma FirstWrittenStep(v: Option<Value>, rest: seq<Option<Value>>, otherwise: string)
    ensures FirstWritten([v] + rest, otherwise) == if Written(v) then Trim(v.value.s) else FirstWritten(rest, otherwise)
  {
    WrittenMeaning(v);
    assert ([v] + rest)[1..] == rest;
  }

  /** The workspace, account or email an old installation id is made from. */
  ghost function LegacyName(data: Option<Data>, otherwise: string): string {
    FirstWritten([Field(data, "workspaceId"), Field(data, "accountId"), Field(data, "email")], otherwise)
  }

  lemma LegacySourceMeaning(data: Option<Data>, otherwise: string)
    ensures LegacyName(data, otherwise) == if LegacySource(data).Some? then LegacySource(data).value else otherwise
    ensures LegacySource(data).Some? ==> LegacySource(data).value != ""
  {
    var workspace, account, email := Field(data, "workspaceId"), Field(data, "accountId"), Field(data, "email");
    WrittenMeaning(workspace);
    WrittenMeaning(account);
    WrittenMeaning(email);
    assert [workspace, account, email] == [workspace] + ([account] + ([email] + []));
    FirstWrittenStep(workspace, [account] + ([email] + []), otherwise);
    FirstWrittenStep(account, [email] + [], otherwise);
    FirstWrittenStep(email, [], otherwise);
  }

  /** Without a seed, what tells accounts apart: the first of these that is written. */
  ghost function AccountName(data: Option<Data>, accountKey: Option<string>): string {
    var key := if accountKey.Some? then Some(Str(accountKey.value)) else None;
    FirstWritten([key, Field(data, "connectionId")] + [Field(data, "workspaceId"), Field(data, "accountId"), Field(data, "email")], "default")
  }

  lemma AccountSeedMeaning(data: Option<Data>, accountKey: Option<string>)
    ensures AccountSeed(data, accountKey) == AccountName(data, accountKey)
  {
    var key := if accountKey.Some? then Some(Str(accountKey.value)) else None;
    var connection := Field(data, "connectionId");
    var names := [Field(data, "workspaceId"), Field(data, "accountId"), Field(data, "email")];
    WrittenMeaning(key);
    WrittenMeaning(connection);
    LegacySourceMeaning(data, "default");
    assert [key, connection] + names == [key] + ([connection] + names);
    FirstWrittenStep(key, [connection] + names, "default");
    FirstWrittenStep(connection, names, "default");
  }

  lemma Salted(name: string)
    ensures INSTALLATION_SALT + ":" + name == "omniroute-codex-installation:" + name
  {
    assert INSTALLATION_SALT + ":" == "omniroute-codex-installation:";
  }

  /** How an id spells the hash of a source. */
  ghost predicate Spells(id: string, source: string, hash: string -> Digest) {
    |id| == 36 && Digits(id) == StampedDigits(hash(source))
  }

  ghost predicate SpellsLegacy(id: string, source: string, hash: string -> Digest) {
    |id| == 36 && Digits(id) == Hex(hash(source))[..32][12 := '4'][16 := 'a']
  }

  /** The seed stored, if it is a UUID, else what tells the account apart, is what every identity is derived from. */
  lemma IdentitySources(client: string, data: Option<Data>, accountKey: Option<string>, hash: string -> Digest)
    ensures
      var session, thread := ConvergedSessionId(data, accountKey, hash), ConvergedThreadId(Some(client), data, accountKey, hash);
      var stored, account := NormalizeUuid(Field(data, "codexFingerprintSeed")), AccountName(data, accountKey);
      Spells(session, if stored.Some? then "omniroute:codex-session-id:v2:" + stored.value
                      else "omniroute:codex-session-id:v1:" + account, hash) &&
      if Written(Some(Str(client))) then
        Spells(thread, if stored.Some? then "omniroute:codex-thread-id:v2:" + stored.value + ":" + client
                       else "omniroute:codex-thread-id:v1:" + account + ":" + client, hash)
      else thread == "" == ConvergedThreadId(None, data, accountKey, hash)
  {
    var stored, account := NormalizeUuid(Field(data, "codexFingerprintSeed")), AccountName(data, accountKey);
    AccountSeedMeaning(data, accountKey);
    WrittenMeaning(Some(Str(client)));
    DerivedSpellsDigest(if stored.Some? then SESSION_PREFIX_V2 + stored.value else SESSION_PREFIX + account, hash);
    DerivedSpellsDigest(
      if stored.Some? then THREAD_PREFIX_V2 + stored.value + ":" + client else THREAD_PREFIX + account + ":" + client, hash);
  }

  /** An installation id is the explicit one, or derived from the seed, the workspace, account or email, or the account. */
  lemma InstallationSource(data: Option<Data>, accountKey: Option<string>, hash: string -> Digest)
    ensures
      var id, legacy := InstallationId(data, accountKey, hash), LegacyName(data, "");
      var explicit, stored := NormalizeUuid(Field(data, "codexInstallationId")), NormalizeUuid(Field(data, "codexFingerprintSeed"));
      if explicit.Some? then id == explicit.value
      else if stored.Some? then Spells(id, "omniroute:codex-installation:v2:" + stored.value, hash)
      else if legacy != "" then SpellsLegacy(id, "omniroute-codex-installation:" + legacy, hash)
      else Spells(id, "omniroute-codex-installation:" + AccountName(data, accountKey), hash)
  {
    var stored, source := FingerprintSeed(data), LegacySource(data);
    LegacySourceMeaning(data, "");
    if stored.Some? {
      DerivedSpellsDigest(INSTALLATION_PREFIX_V2 + stored.value, hash);
    } else if source.Some? {
      Salted(source.value);
      LegacySpellsDigest(INSTALLATION_SALT + ":" + source.value, hash);
    } else {
      Salted(AccountSeed(data, accountKey));
      AccountSeedMeaning(data, accountKey);
      DerivedSpellsDigest(INSTALLATION_SALT + ":" + AccountSeed(data, accountKey), hash);
    }
  }

  // ---------------------------------------------------------------- the seed over runs of saves

  /** What the client sends for the seed has no influence on what is stored. */
  lemma ClientSeedIgnored(data: Data, sent: Value, credentials: Option<Credentials>, existing: Option<Data>, newSeed: string, lower: string -> string)
    ensures EnsureSeed(Some(data[SEED_KEY := sent]), credentials, existing, newSeed, lower)
         == EnsureSeed(Some(data - {SEED_KEY}), credentials, existing, newSeed, lower)
         == EnsureSeed(Some(data), credentials, existing, newSeed, lower)
  {
    assert data[SEED_KEY := sent] - {SEED_KEY} == data - {SEED_KEY};
    assert data - {SEED_KEY} - {SEED_KEY} == data - {SEED_KEY};
  }

  /** One of the two tokens is a string and not blank. */
  ghost predicate HasToken(credentials: Option<Credentials>) {
    credentials.Some? && (Written(credentials.value.accessToken) || Written(credentials.value.refreshToken))
  }

  /** How the client names the mode: under the key of today, or the historical one, or not at all. */
  ghost function NamedMode(data: Option<Data>): string {
    var mode, former := Field(data, "codexFingerprintMode"), Field(data, "codex_fingerprint_mode");
    if Written(mode) then Trim(mode.value.s)
    else if Written(former) then Trim(former.value.s)
    else ""
  }

  lemma ModeMeaning(data: Data, lower: string -> string)
    ensures
      var named := lower(NamedMode(Some(data)));
      Mode(data, lower) == if named in {"off", "device", "session", "full"} then named else "session"
  {
    WrittenMeaning(Field(Some(data), MODE_KEY));
    WrittenMeaning(Field(Some(data), LEGACY_MODE_KEY));
    assert forall m :: m in MODES <==> m in {"off", "device", "session", "full"};
  }

  lemma IsOAuthMeaning(credentials: Option<Credentials>)
    ensures IsOAuth(credentials) <==> HasToken(credentials)
  {
    if credentials.Some? {
      WrittenMeaning(credentials.value.accessToken);
      WrittenMeaning(credentials.value.refreshToken);
    }
  }

  /** A stored seed is the one stored before, or a new one when an OAuth connection had none and its mode is not "off". */
  lemma StoredSeedOrigin(data: Option<Data>, credentials: Option<Credentials>, existing: Option<Data>, newSeed: string, lower: string -> string)
    ensures
      Field(EnsureSeed(data, credentials, existing, newSeed, lower), "codexFingerprintSeed") ==
        if !HasToken(credentials) then None
        else if FingerprintSeed(existing).Some? then Some(Str(FingerprintSeed(existing).value))
        else if lower(NamedMode(data)) != "off" then Some(Str(newSeed))
        else None
  {
    var psd := (if data.Some? then data.value else map[]) - {SEED_KEY};
    IsOAuthMeaning(credentials);
    ModeMeaning(psd, lower);
    assert Field(Some(psd), "codexFingerprintMode") == Field(data, "codexFingerprintMode");
    assert Field(Some(psd), "codex_fingerprint_mode") == Field(data, "codex_fingerprint_mode");
  }

  /** Everything else that is stored is what the client sent, and nothing is stored only when nothing is left to store. */
  lemma OtherFieldsAsSent(
    data: Option<Data>, credentials: Option<Credentials>, existing: Option<Data>, newSeed: string, lower: string -> string)
    ensures
      var stored := EnsureSeed(data, credentials, existing, newSeed, lower);
      (forall key :: key != "codexFingerprintSeed" ==> Field(stored, key) == Field(data, key)) &&
      (stored == None <==> forall key :: Field(stored, key) == None)
  {
    var stored := EnsureSeed(data, credentials, existing, newSeed, lower);
    if stored.Some? && SEED_KEY in stored.value {
      assert Field(stored, SEED_KEY).Some?;
    } else if stored.Some? {
      assert stored.value != map[];
      var key :| key in stored.value;
      assert Field(stored, key).Some?;
    } else {
      var psd := (if data.Some? then data.value else map[]) - {SEED_KEY};
      assert psd == map[];
      forall key | key != SEED_KEY ensures Field(data, key) == None {
        assert key !in psd;
      }
    }
  }

  /** A valid seed survives a save exactly when the save carries OAuth credentials. */
  lemma SeedKeptIffOAuth(data: Option<Data>, credentials: Option<Credentials>, existing: Option<Data>, newSeed: string, lower: string -> string)
    requires FingerprintSeed(existing).Some?
    ensures FingerprintSeed(EnsureSeed(data, credentials, existing, newSeed, lower)) == FingerprintSeed(existing)
       <==> HasToken(credentials)
  {
    StoredSeedOrigin(data, credentials, existing, newSeed, lower);
    UuidsTrimToThemselves(FingerprintSeed(existing).value);
  }

  datatype Save = Save(data: Option<Data>, credentials: Option<Credentials>, newSeed: string)

  ghost function StoredAfter(initial: Option<Data>, saves: seq<Save>, lower: string -> string): Option<Data> {
    if saves == [] then initial
    else
      var last := saves[|saves| - 1];
      EnsureSeed(last.data, last.credentials, StoredAfter(initial, saves[..|saves| - 1], lower), last.newSeed, lower)
  }

  /** After any run of saves every field but the seed is as the last save sent it. */
  lemma StoredFieldsOfLastSave(initial: Option<Data>, saves: seq<Save>, lower: string -> string, key: string)
    requires saves != [] && key != "codexFingerprintSeed"
    ensures Field(StoredAfter(initial, saves, lower), key) == Field(saves[|saves| - 1].data, key)
  {
    var last := saves[|saves| - 1];
    OtherFieldsAsSent(last.data, last.credentials, StoredAfter(initial, saves[..|saves| - 1], lower), last.newSeed, lower);
  }

  /** Over any run of OAuth saves a stored valid seed, and every id derived from it, never changes, whatever the mode. */
  lemma {:induction false} IdentityIsStable(
    initial: Option<Data>, saves: seq<Save>, lower: string -> string, hash: string -> Digest,
    client: Option<string>, key: Option<string>, key': Option<string>)
    requires FingerprintSeed(initial).Some? && forall s :: s in saves ==> HasToken(s.credentials)
    ensures
      var stored := StoredAfter(initial, saves, lower);
      FingerprintSeed(stored) == FingerprintSeed(initial) &&
      ConvergedSessionId(stored, key', hash) == ConvergedSessionId(initial, key, hash) &&
      ConvergedThreadId(client, stored, key', hash) == ConvergedThreadId(client, initial, key, hash)
  {
    if saves != [] {
      var front, last := saves[..|saves| - 1], saves[|saves| - 1];
      IdentityIsStable(initial, front, lower, hash, client, key, key');
      SeedKeptIffOAuth(last.data, last.credentials, StoredAfter(initial, front, lower), last.newSeed, lower);
    }
  }
}
