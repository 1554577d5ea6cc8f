/** Attestation keys from generation through files and environment to the signer and the validator. */
module Attestation {
  import opened GoStrings
  import opened Encoding
  import opened KeyRing

  const KEY_ID_VAR := "RGS_VERIFY_EVIDENCE_ATTESTATION_KEY_ID"
  const PRIVATE_KEY := "RGS_VERIFY_EVIDENCE_ATTESTATION_ED25519_PRIVATE_KEY"
  const PRIVATE_KEYS := "RGS_VERIFY_EVIDENCE_ATTESTATION_ED25519_PRIVATE_KEYS"
  const PUBLIC_KEY := "RGS_VERIFY_EVIDENCE_ATTESTATION_ED25519_PUBLIC_KEY"
  const PUBLIC_KEYS := "RGS_VERIFY_EVIDENCE_ATTESTATION_ED25519_PUBLIC_KEYS"
  const PRIVATE_KEY_FILE := "RGS_VERIFY_EVIDENCE_ATTESTATION_ED25519_PRIVATE_KEY_FILE"
  const PRIVATE_KEYS_FILE := "RGS_VERIFY_EVIDENCE_ATTESTATION_ED25519_PRIVATE_KEYS_FILE"
  const PUBLIC_KEY_FILE := "RGS_VERIFY_EVIDENCE_ATTESTATION_ED25519_PUBLIC_KEY_FILE"
  const PUBLIC_KEYS_FILE := "RGS_VERIFY_EVIDENCE_ATTESTATION_ED25519_PUBLIC_KEYS_FILE"
  const PRIVATE_KEY_COMMAND := "RGS_VERIFY_EVIDENCE_ATTESTATION_ED25519_PRIVATE_KEY_COMMAND"
  const PRIVATE_KEYS_COMMAND := "RGS_VERIFY_EVIDENCE_ATTESTATION_ED25519_PRIVATE_KEYS_COMMAND"
  const PUBLIC_KEY_COMMAND := "RGS_VERIFY_EVIDENCE_ATTESTATION_ED25519_PUBLIC_KEY_COMMAND"
  const PUBLIC_KEYS_COMMAND := "RGS_VERIFY_EVIDENCE_ATTESTATION_ED25519_PUBLIC_KEYS_COMMAND"
  const ENFORCE := "RGS_VERIFY_EVIDENCE_ENFORCE_ATTESTATION_KEY"
  const GITHUB_ACTIONS := "GITHUB_ACTIONS"
  const ALLOW_INLINE := "RGS_VERIFY_EVIDENCE_ALLOW_INLINE_PRIVATE_KEY"
  const DEFAULT_KEY_ID := "dev-default"

  const SEED_SIZE := 32
  const PUBLIC_SIZE := 32
  const PRIVATE_SIZE := 64

  // ---- Ed25519 (RFC 8032), abstractly --------------------------------------------------------------

  /** `derive` gives the public key of a seed; `dev` is the development seed. */
  datatype Scheme = Scheme(derive: Bytes -> Bytes, dev: Bytes, sign: (Bytes, Bytes) -> Bytes,
                           verify: (Bytes, Bytes, Bytes) -> bool)

  /** A private key is its seed followed by its public key. */
  function KeyFromSeed(c: Scheme, seed: Bytes): Bytes {
    seed + c.derive(seed)
  }

  function Public(priv: Bytes): Bytes
    requires |priv| >= SEED_SIZE
  {
    priv[SEED_SIZE..]
  }

  /** What key generation returns. */
  predicate IsKeyPair(c: Scheme, pub: Bytes, priv: Bytes) {
    && |pub| == PUBLIC_SIZE && |priv| == PRIVATE_SIZE
    && pub == c.derive(priv[..SEED_SIZE]) && priv == priv[..SEED_SIZE] + pub
  }

  // ---- generating ------------------------------------------------------------------------------------

  datatype Config = Config(keyID: string, ring: bool, seed: bool)

  datatype Material = Material(privateValue: string, publicValue: string)

  function Labelled(cfg: Config, value: string): string {
    if cfg.ring then cfg.keyID + ":" + value else value
  }

  function Rendered(cfg: Config, pub: Bytes, priv: Bytes): Material
    requires |priv| >= SEED_SIZE
  {
    Material(Labelled(cfg, Base64(if cfg.seed then priv[..SEED_SIZE] else priv)), Labelled(cfg, Base64(pub)))
  }

  method RenderKeyMaterial(cfg: Config, pub: Bytes, priv: Bytes) returns (m: Material)
    requires |priv| >= SEED_SIZE
    ensures m == Rendered(cfg, pub, priv)
  {
    var privateBytes := priv;
    if cfg.seed {
      privateBytes := priv[..SEED_SIZE];
    }
    var privateValue := Base64(privateBytes);
    var publicValue := Base64(pub);
    if cfg.ring {
      privateValue := cfg.keyID + ":" + privateValue;
      publicValue := cfg.keyID + ":" + publicValue;
    }
    return Material(privateValue, publicValue);
  }

  datatype Assignment = Assignment(name: string, value: string)

  /** The two files of out-dir mode and the assignments printed for them. */
  method WriteSecretFiles(cfg: Config, m: Material, privatePath: string, publicPath: string, files: map<string, string>)
    returns (after: map<string, string>, lines: seq<Assignment>)
    ensures after == files[privatePath := m.privateValue + "\n"][publicPath := m.publicValue + "\n"]
    ensures lines == Emitted(cfg, privatePath, publicPath)
  {
    var privateFileVar := PRIVATE_KEY_FILE;
    var publicFileVar := PUBLIC_KEY_FILE;
    if cfg.ring {
      privateFileVar := PRIVATE_KEYS_FILE;
      publicFileVar := PUBLIC_KEYS_FILE;
    }
    after := files[privatePath := m.privateValue + "\n"];
    after := after[publicPath := m.publicValue + "\n"];
    lines := [];
    lines := lines + [Assignment(KEY_ID_VAR, cfg.keyID)];
    lines := lines + [Assignment(privateFileVar, privatePath)];
    lines := lines + [Assignment(publicFileVar, publicPath)];
  }

  function Emitted(cfg: Config, privatePath: string, publicPath: string): seq<Assignment> {
    [Assignment(KEY_ID_VAR, cfg.keyID),
     Assignment(if cfg.ring then PRIVATE_KEYS_FILE else PRIVATE_KEY_FILE, privatePath),
     Assignment(if cfg.ring then PUBLIC_KEYS_FILE else PUBLIC_KEY_FILE, publicPath)]
  }

  function StripKeyIDPrefix(value: string, keyID: string): Option<string> {
    var prefix := keyID + ":";
    if prefix <= value && value != prefix then Some(value[|prefix|..]) else None
  }

  datatype VerifyError = BadPrefix | BadPrivateBase64 | BadPublicBase64 | BadPublicLength | BadPrivateLength | Mismatch

  function Raw(cfg: Config, value: string): Option<string> {
    if cfg.ring then StripKeyIDPrefix(value, cfg.keyID) else Some(value)
  }

  /** The material decodes to a public key and to private material that derives it. */
  ghost predicate Matching(c: Scheme, cfg: Config, m: Material) {
    exists priv, pub ::
      && |pub| == PUBLIC_SIZE
      && Raw(cfg, m.privateValue).Some? && Unbase64(Raw(cfg, m.privateValue).value) == Some(priv)
      && Raw(cfg, m.publicValue).Some? && Unbase64(Raw(cfg, m.publicValue).value) == Some(pub)
      && (|priv| == SEED_SIZE || |priv| == PRIVATE_SIZE)
      && Public(if |priv| == SEED_SIZE then KeyFromSeed(c, priv) else priv) == pub
  }

  method VerifyMaterial(c: Scheme, cfg: Config, m: Material) returns (err: Option<VerifyError>)
    ensures err.None? <==> Matching(c, cfg, m)
  {
    hide Unbase64;
    var privateRaw := m.privateValue;
    var publicRaw := m.publicValue;
    if cfg.ring {
      var p := StripKeyIDPrefix(privateRaw, cfg.keyID);
      if p.None? { return Some(BadPrefix); }
      privateRaw := p.value;
      var q := StripKeyIDPrefix(publicRaw, cfg.keyID);
      if q.None? { return Some(BadPrefix); }
      publicRaw := q.value;
    }
    var privateDecoded := Unbase64(privateRaw);
    if privateDecoded.None? { return Some(BadPrivateBase64); }
    var publicDecoded := Unbase64(publicRaw);
    if publicDecoded.None? { return Some(BadPublicBase64); }
    if |publicDecoded.value| != PUBLIC_SIZE { return Some(BadPublicLength); }
    var key := privateDecoded.value;
    if |key| == SEED_SIZE {
      key := KeyFromSeed(c, key);
    } else if |key| != PRIVATE_SIZE {
      return Some(BadPrivateLength);
    }
    if Public(key) != publicDecoded.value { return Some(Mismatch); }
    return None;
  }

  /** Exactly the id, a colon and something more is stripped to that. */
  lemma StripIff(value: string, keyID: string, rest: string)
    ensures StripKeyIDPrefix(value, keyID) == Some(rest) <==> rest != "" && value == keyID + ":" + rest
  {
  }

  /** What passes fixes the public key: 32 or 64 bytes of private material, and the public value is the key that the
      seed derives, or that the private key ends in. */
  lemma MatchingPublic(c: Scheme, cfg: Config, m: Material, priv: Bytes)
    requires Matching(c, cfg, m) && Raw(cfg, m.privateValue).Some?
    requires Unbase64(Raw(cfg, m.privateValue).value) == Some(priv) && (|priv| == 32 ==> |c.derive(priv)| == 32)
    ensures |priv| == 32 || |priv| == 64
    ensures Raw(cfg, m.publicValue).Some?
    ensures Unbase64(Raw(cfg, m.publicValue).value) == Some(if |priv| == 32 then c.derive(priv) else priv[32..])
  {
    hide Unbase64, Raw;
  }

  lemma RawLabelled(cfg: Config, b: Bytes)
    requires b != []
    ensures Raw(cfg, Labelled(cfg, Base64(b))) == Some(Base64(b))
  {
    var v := Base64(b);
    var prefix := cfg.keyID + ":";
    assert (prefix + v)[|prefix|..] == v;
  }

  /** Checking freshly rendered material never fails, for any key id at all. */
  lemma RenderedMatches(c: Scheme, cfg: Config, pub: Bytes, priv: Bytes)
    requires IsKeyPair(c, pub, priv)
    ensures Matching(c, cfg, Rendered(cfg, pub, priv))
  {
    hide Base64, Unbase64, Raw, Labelled;
    var p := if cfg.seed then priv[..SEED_SIZE] else priv;
    RawLabelled(cfg, p);
    RawLabelled(cfg, pub);
    Base64RoundTrip(p);
    Base64RoundTrip(pub);
    assert Public(priv) == pub;
    assert Public(KeyFromSeed(c, priv[..SEED_SIZE])) == pub;
    var m := Rendered(cfg, pub, priv);
    assert Unbase64(Raw(cfg, m.privateValue).value) == Some(p) && Unbase64(Raw(cfg, m.publicValue).value) == Some(pub);
  }

  // ---- resolving --------------------------------------------------------------------------------------

  /** Unset variables read as empty; a path or command that is absent from its map fails. */
  datatype World = World(env: map<string, string>, files: map<string, string>, outputs: map<string, string>)

  function Getenv(w: World, name: string): string {
    if name in w.env then w.env[name] else ""
  }

  datatype ResolveError = Unreadable | InlineDisabled | BadRing | UnknownKeyID | KeyRequired | KeyIDMismatch | BadKey

  /** `resolveValueSource`: a file beats a command, which beats the plain value. */
  function Source(w: World, valueEnv: string, fileEnv: string, commandEnv: string): Result<string, ResolveError> {
    var p := Trim(Getenv(w, fileEnv));
    if p != "" then
      if p in w.files then Ok(Trim(w.files[p])) else Err(Unreadable)
    else
      var cmd := Trim(Getenv(w, commandEnv));
      if cmd != "" then
        if cmd in w.outputs then Ok(Trim(w.outputs[cmd])) else Err(Unreadable)
      else Ok(Trim(Getenv(w, valueEnv)))
  }

  /** `normalizeKeyMaterial`. */
  function Normalized(raw: string): string {
    var t := Trim(raw);
    if |t| >= 2 && t[0] == t[|t| - 1] && (t[0] == '"' || t[0] == '\'') then Trim(t[1..|t| - 1]) else t
  }

  function ParsePrivate(c: Scheme, raw: string): Result<Bytes, ResolveError> {
    match Unbase64(Normalized(raw))
    case None => Err(BadKey)
    case Some(b) =>
      if |b| == SEED_SIZE then Ok(KeyFromSeed(c, b)) else if |b| == PRIVATE_SIZE then Ok(b) else Err(BadKey)
  }

  function ParsePublic(raw: string): Result<Bytes, ResolveError> {
    match Unbase64(Normalized(raw))
    case None => Err(BadKey)
    case Some(b) => if |b| == PUBLIC_SIZE then Ok(b) else Err(BadKey)
  }

  predicate Enforced(w: World) {
    Getenv(w, ENFORCE) == "true" || Getenv(w, GITHUB_ACTIONS) == "true"
  }

  /** The ring's text for one id. */
  function RingValue(raw: string, keyID: string): Result<string, ResolveError> {
    var parts := Split(raw, ',');
    if AnyMalformed(parts) then Err(BadRing)
    else if keyID in Build(parts) then Ok(Build(parts)[keyID])
    else Err(UnknownKeyID)
  }

  /** The single configured key's text, if it is configured for this id; `None` stands for the development key. */
  function SingleValue(w: World, raw: string, keyID: string): Result<Option<string>, ResolveError> {
    if raw == "" then
      if !Enforced(w) && keyID == DEFAULT_KEY_ID then Ok(None) else Err(KeyRequired)
    else
      var single := if Getenv(w, KEY_ID_VAR) == "" then DEFAULT_KEY_ID else Getenv(w, KEY_ID_VAR);
      if single != keyID then Err(KeyIDMismatch) else Ok(Some(raw))
  }

  predicate InlineRefused(w: World) {
    Enforced(w) && Getenv(w, ALLOW_INLINE) != "true"
    && (!Blank(Getenv(w, PRIVATE_KEY)) || !Blank(Getenv(w, PRIVATE_KEYS)))
  }

  /** What the signer resolves for a key id. */
  function PrivateKey(c: Scheme, w: World, keyID: string): Result<Bytes, ResolveError> {
    if InlineRefused(w) then Err(InlineDisabled) else
    match Source(w, PRIVATE_KEYS, PRIVATE_KEYS_FILE, PRIVATE_KEYS_COMMAND)
    case Err(e) => Err(e)
    case Ok(ring) =>
      if ring != "" then
        match RingValue(ring, keyID) case Err(e) => Err(e) case Ok(raw) => ParsePrivate(c, raw)
      else
        match Source(w, PRIVATE_KEY, PRIVATE_KEY_FILE, PRIVATE_KEY_COMMAND)
        case Err(e) => Err(e)
        case Ok(one) =>
          match SingleValue(w, one, keyID)
          case Err(e) => Err(e)
          case Ok(None) => Ok(KeyFromSeed(c, c.dev))
          case Ok(Some(raw)) => ParsePrivate(c, raw)
  }

  /** What the validator resolves for a key id. */
  function PublicKey(c: Scheme, w: World, keyID: string): Result<Bytes, ResolveError> {
    match Source(w, PUBLIC_KEYS, PUBLIC_KEYS_FILE, PUBLIC_KEYS_COMMAND)
    case Err(e) => Err(e)
    case Ok(ring) =>
      if ring != "" then
        match RingValue(ring, keyID) case Err(e) => Err(e) case Ok(raw) => ParsePublic(raw)
      else
        match Source(w, PUBLIC_KEY, PUBLIC_KEY_FILE, PUBLIC_KEY_COMMAND)
        case Err(e) => Err(e)
        case Ok(one) =>
          match SingleValue(w, one, keyID)
          case Err(e) => Err(e)
          case Ok(None) => Ok(c.derive(c.dev))
          case Ok(Some(raw)) => ParsePublic(raw)
  }

  /** `resolveEd25519PrivateKey`, with the ring parsed by its loop. */
  method ResolveEd25519PrivateKey(c: Scheme, w: World, keyID: string) returns (r: Result<Bytes, ResolveError>)
    ensures r == PrivateKey(c, w, keyID)
  {
    hide Source, Split, Build, ParsePrivate;
    var enforce := Getenv(w, ENFORCE) == "true" || Getenv(w, GITHUB_ACTIONS) == "true";
    var allowInline := Getenv(w, ALLOW_INLINE) == "true";
    if enforce && !allowInline {
      if Trim(Getenv(w, PRIVATE_KEY)) != "" || Trim(Getenv(w, PRIVATE_KEYS)) != "" {
        return Err(InlineDisabled);
      }
    }
    var ringRaw := Source(w, PRIVATE_KEYS, PRIVATE_KEYS_FILE, PRIVATE_KEYS_COMMAND);
    if ringRaw.Err? { return Err(ringRaw.error); }
    if ringRaw.value != "" {
      var ring := ParseKeyRing(ringRaw.value);
      if ring.Err? { return Err(BadRing); }
      if keyID !in ring.value { return Err(UnknownKeyID); }
      return ParsePrivate(c, ring.value[keyID]);
    }
    var raw := Source(w, PRIVATE_KEY, PRIVATE_KEY_FILE, PRIVATE_KEY_COMMAND);
    if raw.Err? { return Err(raw.error); }
    if raw.value == "" {
      if !enforce && keyID == DEFAULT_KEY_ID { return Ok(KeyFromSeed(c, c.dev)); }
      return Err(KeyRequired);
    }
    var singleID := Getenv(w, KEY_ID_VAR);
    if singleID == "" { singleID := DEFAULT_KEY_ID; }
    if singleID != keyID { return Err(KeyIDMismatch); }
    return ParsePrivate(c, raw.value);
  }

  /** `resolveEd25519PublicKey`. */
  method ResolveEd25519PublicKey(c: Scheme, w: World, keyID: string) returns (r: Result<Bytes, ResolveError>)
    ensures r == PublicKey(c, w, keyID)
  {
    hide Source, Split, Build, ParsePublic;
    var enforce := Getenv(w, ENFORCE) == "true" || Getenv(w, GITHUB_ACTIONS) == "true";
    var ringRaw := Source(w, PUBLIC_KEYS, PUBLIC_KEYS_FILE, PUBLIC_KEYS_COMMAND);
    if ringRaw.Err? { return Err(ringRaw.error); }
    if ringRaw.value != "" {
      var ring := ParseKeyRing(ringRaw.value);
      if ring.Err? { return Err(BadRing); }
      if keyID !in ring.value { return Err(UnknownKeyID); }
      return ParsePublic(ring.value[keyID]);
    }
    var raw := Source(w, PUBLIC_KEY, PUBLIC_KEY_FILE, PUBLIC_KEY_COMMAND);
    if raw.Err? { return Err(raw.error); }
    if raw.value == "" {
      if !enforce && keyID == DEFAULT_KEY_ID { return Ok(c.derive(c.dev)); }
      return Err(KeyRequired);
    }
    var singleID := Getenv(w, KEY_ID_VAR);
    if singleID == "" { singleID := DEFAULT_KEY_ID; }
    if singleID != keyID { return Err(KeyIDMismatch); }
    return ParsePublic(raw.value);
  }

  // ---- which key is resolved ---------------------------------------------------------------------------

  predicate Set(w: World, name: string) {
    !Blank(Getenv(w, name))
  }

  /** Nothing gives a text: the three variables are blank. */
  predicate Nothing(w: World, value: string, file: string, command: string) {
    !Set(w, value) && !Set(w, file) && !Set(w, command)
  }

  /** A file wins over a command and a command over a plain value; whichever it is, its text is trimmed, and a file or
      command that fails is an error even if a later one is set. */
  lemma SourceIff(w: World, value: string, file: string, command: string, text: string)
    ensures var r := Source(w, value, file, command);
            && (r == Ok(text) <==>
                  if Set(w, file) then
                    exists f :: f in w.files && f == Trim(Getenv(w, file)) && text == Trim(w.files[f])
                  else if Set(w, command) then
                    exists f :: f in w.outputs && f == Trim(Getenv(w, command)) && text == Trim(w.outputs[f])
                  else text == Trim(Getenv(w, value)))
            && (Nothing(w, value, file, command) ==> r == Ok(""))
  {
    hide Trim;
  }

  predicate Strict(w: World) {
    Getenv(w, "RGS_VERIFY_EVIDENCE_ENFORCE_ATTESTATION_KEY") == "true" || Getenv(w, "GITHUB_ACTIONS") == "true"
  }

  predicate NoPublicKey(w: World) {
    && Nothing(w, PUBLIC_KEYS, PUBLIC_KEYS_FILE, PUBLIC_KEYS_COMMAND)
    && Nothing(w, PUBLIC_KEY, PUBLIC_KEY_FILE, PUBLIC_KEY_COMMAND)
  }

  predicate NoPrivateKey(w: World) {
    && Nothing(w, PRIVATE_KEYS, PRIVATE_KEYS_FILE, PRIVATE_KEYS_COMMAND)
    && Nothing(w, PRIVATE_KEY, PRIVATE_KEY_FILE, PRIVATE_KEY_COMMAND)
  }

  /** With no key configured, both sides use the development pair for the default id, and refuse every other id; under
      enforcement they refuse that too. */
  lemma DevelopmentKey(c: Scheme, w: World, keyID: string)
    ensures NoPublicKey(w) ==>
              PublicKey(c, w, keyID)
              == if keyID == "dev-default" && !Strict(w) then Ok(c.derive(c.dev)) else Err(KeyRequired)
    ensures NoPrivateKey(w) ==>
              PrivateKey(c, w, keyID)
              == if keyID == "dev-default" && !Strict(w) then Ok(c.dev + c.derive(c.dev)) else Err(KeyRequired)
  {
    hide Trim;
    SourceIff(w, PUBLIC_KEYS, PUBLIC_KEYS_FILE, PUBLIC_KEYS_COMMAND, "");
    SourceIff(w, PUBLIC_KEY, PUBLIC_KEY_FILE, PUBLIC_KEY_COMMAND, "");
    SourceIff(w, PRIVATE_KEYS, PRIVATE_KEYS_FILE, PRIVATE_KEYS_COMMAND, "");
    SourceIff(w, PRIVATE_KEY, PRIVATE_KEY_FILE, PRIVATE_KEY_COMMAND, "");
  }

  /** The id that a single configured key is for. */
  function ConfiguredID(w: World): string {
    if Getenv(w, KEY_ID_VAR) == "" then "dev-default" else Getenv(w, KEY_ID_VAR)
  }

  /** The text is base64 of these 32 bytes, perhaps quoted. */
  predicate Encodes(text: string, pub: Bytes) {
    Unbase64(Normalized(text)) == Some(pub) && |pub| == 32
  }

  lemma ParsePublicIff(text: string, pub: Bytes)
    ensures ParsePublic(text) == Ok(pub) <==> Encodes(text, pub)
  {
    hide Unbase64, Normalized;
  }

  /** Without a ring, a configured public key is resolved exactly for the configured id, and is the 32 bytes its text
      decodes to. */
  lemma SinglePublicIff(c: Scheme, w: World, keyID: string, text: string, pub: Bytes)
    requires Nothing(w, PUBLIC_KEYS, PUBLIC_KEYS_FILE, PUBLIC_KEYS_COMMAND)
    requires text != "" && Source(w, PUBLIC_KEY, PUBLIC_KEY_FILE, PUBLIC_KEY_COMMAND) == Ok(text)
    ensures PublicKey(c, w, keyID) == Ok(pub) <==>
              keyID == ConfiguredID(w) && Encodes(text, pub)
  {
    hide Source, ParsePublic, Encodes, Set, Trim;
    ParsePublicIff(text, pub);
    SourceIff(w, PUBLIC_KEYS, PUBLIC_KEYS_FILE, PUBLIC_KEYS_COMMAND, "");
  }

  /** With a ring, exactly the ids that its parts name are resolved, by the last part that names them, and no single
      key, development key or configured id plays a part. */
  lemma RingPublicIff(c: Scheme, w: World, keyID: string, ring: string, pub: Bytes)
    requires ring != "" && Source(w, PUBLIC_KEYS, PUBLIC_KEYS_FILE, PUBLIC_KEYS_COMMAND) == Ok(ring)
    ensures PublicKey(c, w, keyID) == Ok(pub) <==>
              && !AnyMalformed(Split(ring, ','))
              && (exists text :: Gives(Split(ring, ','), keyID, text) && Encodes(text, pub))
  {
    hide Source, ParsePublic, Encodes, Split, Build, AnyMalformed, Gives;
    var parts := Split(ring, ',');
    forall text ensures ParsePublic(text) == Ok(pub) <==> Encodes(text, pub) {
      ParsePublicIff(text, pub);
    }
    forall text ensures Maps(Build(parts), keyID, text) <==> Gives(parts, keyID, text) {
      BuildIff(parts, keyID, text);
    }
    if keyID in Build(parts) {
      assert Maps(Build(parts), keyID, Build(parts)[keyID]);
    }
  }

  /** The signer refuses a private key given in a plain variable exactly under enforcement without the permission for
      it, whatever else is configured. */
  lemma InlineIff(c: Scheme, w: World, keyID: string)
    ensures PrivateKey(c, w, keyID) == Err(InlineDisabled) <==>
              && Strict(w) && Getenv(w, "RGS_VERIFY_EVIDENCE_ALLOW_INLINE_PRIVATE_KEY") != "true"
              && (Set(w, PRIVATE_KEY) || Set(w, PRIVATE_KEYS))
  {
    hide Trim, Unbase64, Normalized, Split, Build;
  }

  /** Every key that is resolved has the size the scheme asks for. */
  lemma ResolvedSizes(c: Scheme, w: World, keyID: string)
    requires |c.dev| == 32 && forall seed :: |seed| == 32 ==> |c.derive(seed)| == 32
    ensures PublicKey(c, w, keyID).Ok? ==> |PublicKey(c, w, keyID).value| == 32
    ensures PrivateKey(c, w, keyID).Ok? ==> |PrivateKey(c, w, keyID).value| == 64
  {
    hide Source, RingValue, SingleValue, Unbase64, Normalized;
  }

  /** A key's text may be quoted, with either quote, and have space around the quotes or inside them. */
  lemma QuotedText(l: string, quote: char, text: string, r: string)
    requires AllSpace(l) && AllSpace(r) && (quote == '"' || quote == '\'')
    ensures Normalized(l + ([quote] + text + [quote]) + r) == Trim(text)
  {
    hide Trim;
    var q := [quote] + text + [quote];
    TrimUnique(l, q, r);
    assert q[1..|q| - 1] == text;
  }

  // ---- generated keys resolve -------------------------------------------------------------------------

  /** The files were written, and of the variables read here only the printed assignments are set, apart from the
      strictness switches. */
  predicate ReadBack(w: World, cfg: Config, m: Material, privatePath: string, publicPath: string) {
    && privatePath != publicPath && Trimmed(privatePath) && Trimmed(publicPath) && privatePath != "" && publicPath != ""
    && privatePath in w.files && w.files[privatePath] == m.privateValue + "\n"
    && publicPath in w.files && w.files[publicPath] == m.publicValue + "\n"
    && (forall a :: a in Emitted(cfg, privatePath, publicPath) ==> Getenv(w, a.name) == a.value)
    && (forall n :: n in w.env && n !in [ENFORCE, GITHUB_ACTIONS, ALLOW_INLINE]
          ==> exists a :: a in Emitted(cfg, privatePath, publicPath) && a.name == n)
  }

  lemma FileText(text: string)
    requires Trimmed(text)
    ensures Trim(text + "\n") == text
  {
    TrimUnique("", text, "\n");
    assert "" + text + "\n" == text + "\n";
  }

  lemma NormalizedBase64(b: Bytes)
    ensures Normalized(Base64(b)) == Base64(b)
  {
    hide Base64, Trim;
    Base64Clean(b);
    TrimTrimmed(Base64(b));
  }

  lemma ParsedBack(c: Scheme, cfg: Config, pub: Bytes, priv: Bytes)
    requires IsKeyPair(c, pub, priv)
    ensures ParsePrivate(c, Base64(if cfg.seed then priv[..SEED_SIZE] else priv)) == Ok(priv)
    ensures ParsePublic(Base64(pub)) == Ok(pub)
  {
    hide Base64, Unbase64, Normalized;
    var p := if cfg.seed then priv[..SEED_SIZE] else priv;
    NormalizedBase64(p);
    NormalizedBase64(pub);
    Base64RoundTrip(p);
    Base64RoundTrip(pub);
  }

  /** A one-entry ring text resolves its own id exactly when the id is clean. */
  lemma RingOfOne(id: string, b: Bytes)
    requires b != []
    ensures CleanId(id) ==>
              Trimmed(id + ":" + Base64(b)) && RingValue(Trim(id + ":" + Base64(b) + "\n"), id) == Ok(Base64(b))
    ensures !CleanId(id) ==> RingValue(Trim(id + ":" + Base64(b) + "\n"), id).Err?
  {
    hide Base64, Trim, Build, EntryOf, Split, Malformed;
    var v := Base64(b);
    var text := id + ":" + v;
    Base64Clean(b);
    if CleanId(id) {
      var e := Entry(id, v);
      FileText(text);
      assert CleanValue(v);
      RingRoundTrip([e]);
      OneEntry(e);
    } else {
      var raw := Trim(text + "\n");
      JoinSplit(raw, ',');
      RingIdsClean(Split(raw, ','));
    }
  }

  lemma OneEntry(e: Entry)
    ensures PrintRing([e]) == e.id + ":" + e.value && MapOf([e]) == map[e.id := e.value]
  {
    assert Printed([e]) == [Print(e)];
    assert [e][..0] == [];
  }

  lemma RingSources(w: World, cfg: Config, m: Material, privatePath: string, publicPath: string)
    requires cfg.ring && ReadBack(w, cfg, m, privatePath, publicPath)
    ensures !InlineRefused(w)
    ensures Source(w, PRIVATE_KEYS, PRIVATE_KEYS_FILE, PRIVATE_KEYS_COMMAND) == Ok(Trim(m.privateValue + "\n"))
    ensures Source(w, PUBLIC_KEYS, PUBLIC_KEYS_FILE, PUBLIC_KEYS_COMMAND) == Ok(Trim(m.publicValue + "\n"))
  {
    hide Trim;
    var lines := Emitted(cfg, privatePath, publicPath);
    assert lines[1] in lines && lines[2] in lines;
    TrimTrimmed(privatePath);
    TrimTrimmed(publicPath);
    TrimTrimmed("");
    NotInline(w, cfg, m, privatePath, publicPath);
  }

  lemma NotInline(w: World, cfg: Config, m: Material, privatePath: string, publicPath: string)
    requires ReadBack(w, cfg, m, privatePath, publicPath)
    ensures Getenv(w, PRIVATE_KEY) == Getenv(w, PRIVATE_KEYS) == Getenv(w, PUBLIC_KEY) == Getenv(w, PUBLIC_KEYS) == ""
    ensures Getenv(w, PRIVATE_KEY_COMMAND) == Getenv(w, PRIVATE_KEYS_COMMAND) == ""
    ensures Getenv(w, PUBLIC_KEY_COMMAND) == Getenv(w, PUBLIC_KEYS_COMMAND) == ""
    ensures !cfg.ring ==> Getenv(w, PRIVATE_KEYS_FILE) == "" && Getenv(w, PUBLIC_KEYS_FILE) == ""
  {
    hide ReadBack, Getenv;
    Lengths();
    Unset(w, cfg, m, privatePath, publicPath, PRIVATE_KEY);
    Unset(w, cfg, m, privatePath, publicPath, PRIVATE_KEYS);
    Unset(w, cfg, m, privatePath, publicPath, PUBLIC_KEY);
    Unset(w, cfg, m, privatePath, publicPath, PUBLIC_KEYS);
    Unset(w, cfg, m, privatePath, publicPath, PRIVATE_KEY_COMMAND);
    Unset(w, cfg, m, privatePath, publicPath, PRIVATE_KEYS_COMMAND);
    Unset(w, cfg, m, privatePath, publicPath, PUBLIC_KEY_COMMAND);
    Unset(w, cfg, m, privatePath, publicPath, PUBLIC_KEYS_COMMAND);
    if !cfg.ring {
      assert PUBLIC_KEYS_FILE[41] != PRIVATE_KEY_FILE[41];
      Unset(w, cfg, m, privatePath, publicPath, PRIVATE_KEYS_FILE);
      Unset(w, cfg, m, privatePath, publicPath, PUBLIC_KEYS_FILE);
    }
  }

  lemma Unset(w: World, cfg: Config, m: Material, privatePath: string, publicPath: string, name: string)
    requires ReadBack(w, cfg, m, privatePath, publicPath) && |name| > 44
    requires var e := Emitted(cfg, privatePath, publicPath); name != e[1].name && name != e[2].name
    ensures Getenv(w, name) == ""
  {
    Lengths();
  }

  lemma Lengths()
    ensures |KEY_ID_VAR| == 38 && |PRIVATE_KEY| == 51 && |PRIVATE_KEYS| == 52 && |PUBLIC_KEY| == 50
    ensures |PUBLIC_KEYS| == 51 && |PRIVATE_KEY_FILE| == 56 && |PRIVATE_KEYS_FILE| == 57 && |PUBLIC_KEY_FILE| == 55
    ensures |PUBLIC_KEYS_FILE| == 56 && |PRIVATE_KEY_COMMAND| == 59 && |PRIVATE_KEYS_COMMAND| == 60
    ensures |PUBLIC_KEY_COMMAND| == 58 && |PUBLIC_KEYS_COMMAND| == 59
    ensures |ENFORCE| == 43 && |GITHUB_ACTIONS| == 14 && |ALLOW_INLINE| == 44
  {
  }

  lemma SingleSources(w: World, cfg: Config, m: Material, privatePath: string, publicPath: string)
    requires !cfg.ring && ReadBack(w, cfg, m, privatePath, publicPath)
    ensures !InlineRefused(w)
    ensures Source(w, PRIVATE_KEYS, PRIVATE_KEYS_FILE, PRIVATE_KEYS_COMMAND) == Ok("")
    ensures Source(w, PUBLIC_KEYS, PUBLIC_KEYS_FILE, PUBLIC_KEYS_COMMAND) == Ok("")
    ensures Source(w, PRIVATE_KEY, PRIVATE_KEY_FILE, PRIVATE_KEY_COMMAND) == Ok(Trim(m.privateValue + "\n"))
    ensures Source(w, PUBLIC_KEY, PUBLIC_KEY_FILE, PUBLIC_KEY_COMMAND) == Ok(Trim(m.publicValue + "\n"))
    ensures Getenv(w, KEY_ID_VAR) == cfg.keyID
  {
    hide Trim;
    var lines := Emitted(cfg, privatePath, publicPath);
    assert lines[0] in lines && lines[1] in lines && lines[2] in lines;
    TrimTrimmed(privatePath);
    TrimTrimmed(publicPath);
    TrimTrimmed("");
    NotInline(w, cfg, m, privatePath, publicPath);
  }

  lemma RingTextNotEmpty(id: string, v: string)
    ensures Trim(id + ":" + v + "\n") != ""
  {
    var text := id + ":" + v + "\n";
    assert text[|id|] == ':';
    TrimKeeps(text, ':');
  }

  /** Generated keys, read back from their files, resolve in the signer and in the validator to the generated pair
      under the same id: always in single-key form, and in ring form exactly when the id is trimmed and free of the
      ring's delimiters, else both refuse. Strictness switches make no difference. */
  lemma GeneratedResolve(c: Scheme, w: World, cfg: Config, pub: Bytes, priv: Bytes,
                         privatePath: string, publicPath: string)
    requires IsKeyPair(c, pub, priv) && cfg.keyID != ""
    requires ReadBack(w, cfg, Rendered(cfg, pub, priv), privatePath, publicPath)
    ensures (cfg.ring ==> CleanId(cfg.keyID)) ==>
              PrivateKey(c, w, cfg.keyID) == Ok(priv) && PublicKey(c, w, cfg.keyID) == Ok(pub) && Public(priv) == pub
    ensures cfg.ring && !CleanId(cfg.keyID) ==>
              PrivateKey(c, w, cfg.keyID).Err? && PublicKey(c, w, cfg.keyID).Err?
  {
    hide Base64, Trim, RingValue, Source, ParsePrivate, ParsePublic, ReadBack, InlineRefused, CleanId;
    var p := if cfg.seed then priv[..SEED_SIZE] else priv;
    var m := Rendered(cfg, pub, priv);
    ParsedBack(c, cfg, pub, priv);
    assert Public(priv) == pub;
    if cfg.ring {
      RingSources(w, cfg, m, privatePath, publicPath);
      RingTextNotEmpty(cfg.keyID, Base64(p));
      RingTextNotEmpty(cfg.keyID, Base64(pub));
      RingOfOne(cfg.keyID, p);
      RingOfOne(cfg.keyID, pub);
    } else {
      SingleSources(w, cfg, m, privatePath, publicPath);
      Base64Clean(p);
      Base64Clean(pub);
      FileText(Base64(p));
      FileText(Base64(pub));
    }
  }

  // ---- signing and checking the attestation -----------------------------------------------------------

  const ED25519 := "ed25519"

  /** The signature file the signer writes. */
  function SignatureFile(c: Scheme, priv: Bytes, data: Bytes): string {
    Hex(c.sign(priv, data)) + "\n"
  }

  /** `verifyAttestationSignature` on the trimmed contents of the signature file. */
  predicate SignatureAccepted(c: Scheme, w: World, alg: string, keyID: string, data: Bytes, file: string) {
    alg == ED25519 && PublicKey(c, w, keyID).Ok? && Unhex(Trim(file)).Some?
    && c.verify(PublicKey(c, w, keyID).value, data, Unhex(Trim(file)).value)
  }

  /** A signature is accepted exactly for this one algorithm, with a key resolved for the id, if the file is the hex
      text of bytes that the scheme verifies, with any space around. */
  lemma SignatureIff(c: Scheme, w: World, alg: string, keyID: string, data: Bytes, file: string)
    ensures SignatureAccepted(c, w, alg, keyID, data, file) <==>
              && alg == "ed25519"
              && exists pub, sig ::
                   PublicKey(c, w, keyID) == Ok(pub) && Unhex(Trim(file)) == Some(sig) && c.verify(pub, data, sig)
  {
    hide PublicKey, Unhex, Trim;
  }

  /** From key generation to verification: what the signer signs with generated material the validator accepts. */
  lemma GeneratedSignatureAccepted(c: Scheme, w: World, cfg: Config, pub: Bytes, priv: Bytes, privatePath: string,
                                   publicPath: string, data: Bytes)
    requires IsKeyPair(c, pub, priv) && cfg.keyID != "" && (cfg.ring ==> CleanId(cfg.keyID))
    requires ReadBack(w, cfg, Rendered(cfg, pub, priv), privatePath, publicPath)
    requires c.verify(pub, data, c.sign(priv, data))
    ensures PrivateKey(c, w, cfg.keyID).Ok?
    ensures SignatureAccepted(c, w, ED25519, cfg.keyID, data, SignatureFile(c, PrivateKey(c, w, cfg.keyID).value, data))
  {
    hide PrivateKey, PublicKey, Hex, Unhex, Trim, ReadBack, Rendered, CleanId;
    GeneratedResolve(c, w, cfg, pub, priv, privatePath, publicPath);
    var sig := c.sign(priv, data);
    assert Trimmed(Hex(sig));
    FileText(Hex(sig));
    HexRoundTrip(sig);
  }
}
