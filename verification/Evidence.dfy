/** Strict validation of an evidence directory: the attestation pins the summary, the summary pins its validation
    log, and the manifest lists what it must. A directory is a fixed snapshot of its readable files. */
module Evidence {
  import opened GoStrings
  import opened Encoding
  import Attestation
  import KeyRing

  datatype SummaryDoc = SummaryDoc(runDir: string, logName: string, logSHA: string, attestationFile: string,
                                   signatureFile: string)

  datatype AttestationDoc = AttestationDoc(schemaVersion: int, generatedAt: string, runDir: string, summarySHA: string,
                                           keyID: string, alg: string)

  /** What the validator calls: the hex digest, the JSON schema check and decoders, the signature check on
      (algorithm, key id, attestation, trimmed signature text), and the path functions. */
  datatype Tools = Tools(
    digest: string -> string,
    schema: string -> bool,
    summary: string -> Option<SummaryDoc>,
    attestation: string -> Option<AttestationDoc>,
    signed: (string, string, string, string) -> bool,
    clean: string -> string,
    join: (string, string) -> string,
    base: string -> string,
    dir: string -> string)

  type Files = map<string, string>

  // ---- text helpers -----------------------------------------------------------------------------------

  /** Simple case folding of the characters that fold onto ASCII letters. */
  function Fold(c: char): char {
    if 'A' <= c <= 'Z' then (c as int + 32) as char
    else if c == '\U{212A}' then 'k'
    else if c == '\U{17F}' then 's'
    else c
  }

  /** `strings.EqualFold`. */
  predicate EqualFold(s: string, t: string) {
    |s| == |t| && forall i :: 0 <= i < |s| ==> Fold(s[i]) == Fold(t[i])
  }

  /** Two lower-case digests that equal one text up to case are equal. */
  lemma EqualFoldPins(a: string, b: string, t: string)
    requires IsLowerHex(a) && IsLowerHex(b) && EqualFold(a, t) && EqualFold(b, t)
    ensures a == b
  {
    forall i | 0 <= i < |a| ensures a[i] == b[i] {
      assert Fold(a[i]) == Fold(t[i]) == Fold(b[i]);
    }
  }

  predicate Contains(s: string, sub: string) {
    sub <= s || (s != "" && Contains(s[1..], sub))
  }

  /** The length of the leading run of characters that are not white space. */
  function WordLength(s: string): (n: nat)
    ensures n <= |s| && (n < |s| ==> IsSpace(s[n]))
    ensures forall i :: 0 <= i < n ==> !IsSpace(s[i])
  {
    if s == "" || IsSpace(s[0]) then 0
    else
      var n := WordLength(s[1..]);
      assert forall i :: 1 <= i < n + 1 ==> s[i] == s[1..][i - 1];
      n + 1
  }

  /** `strings.Fields`. */
  function Fields(s: string): seq<string>
    decreases |s|
  {
    if s == "" then []
    else if IsSpace(s[0]) then Fields(s[1..])
    else
      var n := WordLength(s);
      [s[..n]] + Fields(s[n..])
  }

  // ---- the manifest ---------------------------------------------------------------------------------------

  predicate LineLists(tk: Tools, line: string, sum: string, path: string) {
    var f := Fields(line);
    |f| >= 2 && EqualFold(f[0], sum) && tk.clean(f[1]) == path
  }

  /** Some manifest line gives this digest for this path. */
  predicate Lists(tk: Tools, manifest: string, sum: string, path: string) {
    exists i :: 0 <= i < |Split(manifest, '\n')| && LineLists(tk, Split(manifest, '\n')[i], sum, path)
  }

  /** A line of `sha256sum`: the digest, two spaces, the path. It reads back as written exactly when the path is
      one word. */
  lemma ManifestLineIff(sum: string, path: string)
    requires sum != "" && forall i :: 0 <= i < |sum| ==> !IsSpace(sum[i])
    ensures |Fields(sum + "  " + path)| >= 1 && Fields(sum + "  " + path)[0] == sum
    ensures |Fields(sum + "  " + path)| >= 2 && Fields(sum + "  " + path)[1] == path <==>
              path != "" && forall i :: 0 <= i < |path| ==> !IsSpace(path[i])
  {
    var line := sum + "  " + path;
    assert line[|sum|] == ' ';
    assert WordLength(line) == |sum| && line[..|sum|] == sum;
    var rest := line[|sum|..];
    assert rest == "  " + path;
    assert rest[1..] == " " + path && rest[1..][1..] == path;
    assert Fields(rest) == Fields(rest[1..]) == Fields(path);
    assert Fields(line) == [sum] + Fields(path);
    FirstField(path);
  }

  lemma {:induction false} FirstField(path: string)
    ensures |Fields(path)| >= 1 && Fields(path)[0] == path <==>
              path != "" && forall i :: 0 <= i < |path| ==> !IsSpace(path[i])
  {
    if path == "" {
    } else if IsSpace(path[0]) {
      FirstFieldWord(path[1..]);
    } else {
      var n := WordLength(path);
      if n == |path| {
        assert path[..n] == path;
      } else {
        assert |path[..n]| < |path|;
      }
    }
  }

  lemma {:induction false} FirstFieldWord(s: string)
    ensures |Fields(s)| >= 1 ==> |Fields(s)[0]| <= |s|
  {
    if s != "" && IsSpace(s[0]) {
      FirstFieldWord(s[1..]);
    }
  }

  // ---- acceptance -------------------------------------------------------------------------------------

  /** The paths one summary leads to. */
  function InDir(tk: Tools, summaryPath: string, name: string): string {
    tk.join(tk.clean(tk.dir(summaryPath)), name)
  }

  /** The summary passes its own checks and names a log with the digest it states. */
  predicate SummaryHolds(tk: Tools, files: Files, summaryPath: string) {
    && summaryPath in files && tk.schema(files[summaryPath]) && tk.summary(files[summaryPath]).Some?
    && var s := tk.summary(files[summaryPath]).value;
    && tk.base(s.logName) == s.logName && tk.base(s.attestationFile) == s.attestationFile
    && tk.base(s.signatureFile) == s.signatureFile
    && tk.clean(s.runDir) == tk.clean(tk.dir(summaryPath))
    && InDir(tk, summaryPath, s.logName) in files
    && EqualFold(tk.digest(files[InDir(tk, summaryPath, s.logName)]), s.logSHA)
  }

  function Doc(tk: Tools, files: Files, summaryPath: string): SummaryDoc
    requires SummaryHolds(tk, files, summaryPath)
  {
    tk.summary(files[summaryPath]).value
  }

  function LogPath(tk: Tools, files: Files, summaryPath: string): string
    requires SummaryHolds(tk, files, summaryPath)
  {
    InDir(tk, summaryPath, Doc(tk, files, summaryPath).logName)
  }

  function AttestationPath(tk: Tools, files: Files, summaryPath: string): string
    requires SummaryHolds(tk, files, summaryPath)
  {
    InDir(tk, summaryPath, Doc(tk, files, summaryPath).attestationFile)
  }

  function SignaturePath(tk: Tools, files: Files, summaryPath: string): string
    requires SummaryHolds(tk, files, summaryPath)
  {
    InDir(tk, summaryPath, Doc(tk, files, summaryPath).signatureFile)
  }

  predicate AttestationWellFormed(a: AttestationDoc) {
    && a.schemaVersion == 1 && a.generatedAt != "" && a.runDir != "" && a.summarySHA != ""
    && a.keyID != "" && a.alg == "ed25519"
  }

  /** The attestation is signed, is about this run, and states the summary's digest. */
  predicate AttestationHolds(tk: Tools, files: Files, summaryPath: string)
    requires SummaryHolds(tk, files, summaryPath)
  {
    var data, sig := AttestationPath(tk, files, summaryPath), SignaturePath(tk, files, summaryPath);
    && data in files && sig in files && tk.attestation(files[data]).Some?
    && var a := tk.attestation(files[data]).value;
    && AttestationWellFormed(a)
    && tk.signed(a.alg, a.keyID, files[data], Trim(files[sig]))
    && tk.clean(a.runDir) == tk.clean(Doc(tk, files, summaryPath).runDir)
    && EqualFold(tk.digest(files[summaryPath]), a.summarySHA)
  }

  /** The index and the manifest mention the log, the attestation and the signature. */
  predicate ListingsHold(tk: Tools, files: Files, summaryPath: string)
    requires SummaryHolds(tk, files, summaryPath) && AttestationHolds(tk, files, summaryPath)
  {
    var index, manifest := InDir(tk, summaryPath, "index.txt"), InDir(tk, summaryPath, "manifest.sha256");
    var s := Doc(tk, files, summaryPath);
    && index in files && manifest in files
    && Contains(files[index], "summary_validation.log\t") && Contains(files[index], "attestation.json\t")
    && Contains(files[index], "attestation.sig\t")
    && Lists(tk, files[manifest], s.logSHA, tk.clean(tk.join(s.runDir, s.logName)))
    && Lists(tk, files[manifest], tk.digest(files[AttestationPath(tk, files, summaryPath)]),
             tk.clean(tk.join(s.runDir, s.attestationFile)))
    && Lists(tk, files[manifest], tk.digest(files[SignaturePath(tk, files, summaryPath)]),
             tk.clean(tk.join(s.runDir, s.signatureFile)))
  }

  predicate Accepted(tk: Tools, files: Files, summaryPath: string) {
    && SummaryHolds(tk, files, summaryPath) && AttestationHolds(tk, files, summaryPath)
    && ListingsHold(tk, files, summaryPath)
  }

  datatype ValidationError =
    | BadMode | Unreadable(path: string) | BadSummary | NotBasename | RunDirMismatch | LogMismatch | IndexMissing
    | ManifestMissing | BadAttestation | BadSignature | SummaryMismatch

  /** `ValidateSummaryArtifact`: json mode checks the schema, strict mode everything. */
  method ValidateSummaryArtifact(tk: Tools, files: Files, summaryPath: string, mode: string)
    returns (err: Option<ValidationError>)
    ensures mode == "json" ==> (err.None? <==> summaryPath in files && tk.schema(files[summaryPath]))
    ensures mode == "strict" ==> (err.None? <==> Accepted(tk, files, summaryPath))
    ensures mode != "json" && mode != "strict" ==> err.Some?
  {
    if mode != "json" && mode != "strict" { return Some(BadMode); }
    if summaryPath !in files { return Some(Unreadable(summaryPath)); }
    var data := files[summaryPath];
    if !tk.schema(data) { return Some(BadSummary); }
    if mode == "json" { return None; }
    if tk.summary(data).None? { return Some(BadSummary); }
    var s := tk.summary(data).value;
    if tk.base(s.logName) != s.logName { return Some(NotBasename); }
    if tk.base(s.attestationFile) != s.attestationFile { return Some(NotBasename); }
    if tk.base(s.signatureFile) != s.signatureFile { return Some(NotBasename); }
    var summaryDir := tk.clean(tk.dir(summaryPath));
    if tk.clean(s.runDir) != summaryDir { return Some(RunDirMismatch); }
    var logPath := tk.join(summaryDir, s.logName);
    if logPath !in files { return Some(Unreadable(logPath)); }
    if !EqualFold(tk.digest(files[logPath]), s.logSHA) { return Some(LogMismatch); }
    assert SummaryHolds(tk, files, summaryPath);
    err := ValidateListings(tk, files, summaryPath, s);
  }

  /** The rest of strict mode, once the summary and its log hold. */
  method ValidateListings(tk: Tools, files: Files, summaryPath: string, s: SummaryDoc)
    returns (err: Option<ValidationError>)
    requires SummaryHolds(tk, files, summaryPath) && s == Doc(tk, files, summaryPath)
    ensures err.None? <==> AttestationHolds(tk, files, summaryPath) && ListingsHold(tk, files, summaryPath)
  {
    hide SummaryHolds, AttestationHolds, Contains, Lists;
    var summaryDir := tk.clean(tk.dir(summaryPath));
    var indexPath := tk.join(summaryDir, "index.txt");
    if indexPath !in files { return Some(Unreadable(indexPath)); }
    var index := files[indexPath];
    if !Contains(index, "summary_validation.log\t") { return Some(IndexMissing); }
    var manifestPath := tk.join(summaryDir, "manifest.sha256");
    if manifestPath !in files { return Some(Unreadable(manifestPath)); }
    var manifest := files[manifestPath];
    var foundLog := FindManifestLine(tk, manifest, s.logSHA, tk.clean(tk.join(s.runDir, s.logName)));
    if !foundLog { return Some(ManifestMissing); }
    err := ValidateAttestation(tk, files, summaryPath, s);
    if err.Some? { return; }
    if !Contains(index, "attestation.json\t") || !Contains(index, "attestation.sig\t") { return Some(IndexMissing); }
    AttestationReadable(tk, files, summaryPath);
    var attPath := tk.join(summaryDir, s.attestationFile);
    var sigPath := tk.join(summaryDir, s.signatureFile);
    var foundAtt, foundSig := FindTwoLines(tk, manifest,
      tk.digest(files[attPath]), tk.clean(tk.join(s.runDir, s.attestationFile)),
      tk.digest(files[sigPath]), tk.clean(tk.join(s.runDir, s.signatureFile)));
    if !foundAtt || !foundSig { return Some(ManifestMissing); }
    return None;
  }

  lemma AttestationReadable(tk: Tools, files: Files, summaryPath: string)
    requires SummaryHolds(tk, files, summaryPath) && AttestationHolds(tk, files, summaryPath)
    ensures AttestationPath(tk, files, summaryPath) in files && SignaturePath(tk, files, summaryPath) in files
  {
  }

  /** The attestation part of strict mode. */
  method ValidateAttestation(tk: Tools, files: Files, summaryPath: string, s: SummaryDoc)
    returns (err: Option<ValidationError>)
    requires SummaryHolds(tk, files, summaryPath) && s == Doc(tk, files, summaryPath)
    ensures err.None? <==> AttestationHolds(tk, files, summaryPath)
  {
    hide EqualFold, Trim;
    var summaryDir := tk.clean(tk.dir(summaryPath));
    var attPath := tk.join(summaryDir, s.attestationFile);
    if attPath !in files { return Some(Unreadable(attPath)); }
    var sigPath := tk.join(summaryDir, s.signatureFile);
    if sigPath !in files { return Some(Unreadable(sigPath)); }
    var decoded := tk.attestation(files[attPath]);
    if decoded.None? { return Some(BadAttestation); }
    var a := decoded.value;
    if a.schemaVersion != 1 || a.generatedAt == "" || a.runDir == "" || a.summarySHA == "" || a.keyID == ""
       || a.alg != "ed25519"
    {
      return Some(BadAttestation);
    }
    if !tk.signed(a.alg, a.keyID, files[attPath], Trim(files[sigPath])) { return Some(BadSignature); }
    if tk.clean(a.runDir) != tk.clean(s.runDir) { return Some(RunDirMismatch); }
    if !EqualFold(tk.digest(files[summaryPath]), a.summarySHA) { return Some(SummaryMismatch); }
    return None;
  }

  /** The first manifest loop, which stops at the line it looks for. */
  method FindManifestLine(tk: Tools, manifest: string, sum: string, path: string) returns (found: bool)
    ensures found <==> Lists(tk, manifest, sum, path)
  {
    var lines := Split(manifest, '\n');
    found := false;
    for i := 0 to |lines|
      invariant !found
      invariant forall j :: 0 <= j < i ==> !LineLists(tk, lines[j], sum, path)
    {
      var f := Fields(lines[i]);
      if |f| < 2 {
        continue;
      }
      if EqualFold(f[0], sum) && tk.clean(f[1]) == path {
        found := true;
        assert LineLists(tk, lines[i], sum, path);
        break;
      }
    }
  }

  /** The second manifest loop, which reads every line and sets two flags. */
  method FindTwoLines(tk: Tools, manifest: string, sumA: string, pathA: string, sumB: string, pathB: string)
    returns (foundA: bool, foundB: bool)
    ensures foundA <==> Lists(tk, manifest, sumA, pathA)
    ensures foundB <==> Lists(tk, manifest, sumB, pathB)
  {
    hide Fields, Split, EqualFold;
    var lines := Split(manifest, '\n');
    foundA, foundB := false, false;
    for i := 0 to |lines|
      invariant foundA <==> exists j :: 0 <= j < i && LineLists(tk, lines[j], sumA, pathA)
      invariant foundB <==> exists j :: 0 <= j < i && LineLists(tk, lines[j], sumB, pathB)
    {
      var f := Fields(lines[i]);
      if |f| < 2 {
        continue;
      }
      if EqualFold(f[0], sumA) && tk.clean(f[1]) == pathA {
        foundA := true;
        assert LineLists(tk, lines[i], sumA, pathA);
      }
      if EqualFold(f[0], sumB) && tk.clean(f[1]) == pathB {
        foundB := true;
        assert LineLists(tk, lines[i], sumB, pathB);
      }
    }
  }

  // ---- what acceptance pins ---------------------------------------------------------------------------

  ghost predicate DigestsAreWords(tk: Tools) {
    forall x :: IsLowerHex(tk.digest(x))
  }

  /** Two accepted directories with the same attestation bytes have the same summary and the same validation log,
      unless one of the two pairs is a digest collision. */
  lemma AttestationPins(tk: Tools, f: Files, p: string, g: Files, q: string)
    requires DigestsAreWords(tk) && Accepted(tk, f, p) && Accepted(tk, g, q)
    requires f[AttestationPath(tk, f, p)] == g[AttestationPath(tk, g, q)]
    requires !Collides(tk.digest, f[p], g[q])
    requires !Collides(tk.digest, f[LogPath(tk, f, p)], g[LogPath(tk, g, q)])
    ensures f[p] == g[q] && f[LogPath(tk, f, p)] == g[LogPath(tk, g, q)]
  {
    hide EqualFold, Contains, Lists, ListingsHold;
    var a := tk.attestation(f[AttestationPath(tk, f, p)]).value;
    EqualFoldPins(tk.digest(f[p]), tk.digest(g[q]), a.summarySHA);
    var s := Doc(tk, f, p);
    EqualFoldPins(tk.digest(f[LogPath(tk, f, p)]), tk.digest(g[LogPath(tk, g, q)]), s.logSHA);
  }

  /** An accepted directory's manifest gives, for each of the three files, the digest of the bytes that are there. */
  lemma ManifestCoversFiles(tk: Tools, f: Files, p: string)
    requires DigestsAreWords(tk) && Accepted(tk, f, p)
    ensures var m, s := f[InDir(tk, p, "manifest.sha256")], Doc(tk, f, p);
            && Lists(tk, m, tk.digest(f[LogPath(tk, f, p)]), tk.clean(tk.join(s.runDir, s.logName)))
            && Lists(tk, m, tk.digest(f[AttestationPath(tk, f, p)]), tk.clean(tk.join(s.runDir, s.attestationFile)))
            && Lists(tk, m, tk.digest(f[SignaturePath(tk, f, p)]), tk.clean(tk.join(s.runDir, s.signatureFile)))
  {
    hide Fields, Split, Contains;
    var m, s := f[InDir(tk, p, "manifest.sha256")], Doc(tk, f, p);
    var path := tk.clean(tk.join(s.runDir, s.logName));
    var i :| 0 <= i < |Split(m, '\n')| && LineLists(tk, Split(m, '\n')[i], s.logSHA, path);
    assert LineLists(tk, Split(m, '\n')[i], tk.digest(f[LogPath(tk, f, p)]), path);
  }

  // ---- acceptance, said of the files ---------------------------------------------------------------------

  /** The text holds this one somewhere. */
  ghost predicate Mentions(text: string, part: string) {
    exists u, v :: text == u + part + v
  }

  lemma {:induction false} ContainsIff(s: string, part: string)
    ensures Contains(s, part) <==> Mentions(s, part)
  {
    if part <= s {
      assert s == "" + part + s[|part|..];
    } else if s != "" {
      ContainsIff(s[1..], part);
      if Mentions(s[1..], part) {
        var u, v :| s[1..] == u + part + v;
        assert s == ([s[0]] + u) + part + v;
      }
      if Mentions(s, part) {
        var u, v :| s == u + part + v;
        assert u != "";
        assert s[1..] == u[1..] + part + v;
      }
    }
  }

  /** The same hex digits, capital or small. */
  predicate SameDigits(hex: string, t: string) {
    |hex| == |t| && forall i :: 0 <= i < |hex| ==>
      t[i] == hex[i] || ('a' <= hex[i] <= 'f' && t[i] as int == hex[i] as int - 32)
  }

  lemma EqualFoldIff(hex: string, t: string)
    requires IsLowerHex(hex)
    ensures EqualFold(hex, t) <==> SameDigits(hex, t)
    ensures EqualFold(t, hex) <==> SameDigits(hex, t)
  {
    if |hex| == |t| {
      forall i | 0 <= i < |hex|
        ensures Fold(hex[i]) == Fold(t[i]) <==>
                  t[i] == hex[i] || ('a' <= hex[i] <= 'f' && t[i] as int == hex[i] as int - 32)
      {
        FoldIff(hex[i], t[i]);
      }
    }
  }

  lemma FoldIff(h: char, c: char)
    requires '0' <= h <= '9' || 'a' <= h <= 'f'
    ensures Fold(h) == Fold(c) <==> c == h || ('a' <= h <= 'f' && c as int == h as int - 32)
  {
  }

  /** A line of the manifest starts with two words that are this digest and a way to write this path. */
  ghost predicate ListedAs(tk: Tools, manifest: string, hex: string, path: string) {
    exists line :: line in Split(manifest, '\n') && LineGives(tk, line, hex, path)
  }

  predicate LineGives(tk: Tools, line: string, hex: string, path: string) {
    |Fields(line)| >= 2 && SameDigits(hex, Fields(line)[0]) && tk.clean(Fields(line)[1]) == path
  }

  lemma ListsIff(tk: Tools, manifest: string, sum: string, hex: string, path: string)
    requires IsLowerHex(hex) && SameDigits(hex, sum)
    ensures Lists(tk, manifest, sum, path) <==> ListedAs(tk, manifest, hex, path)
  {
    hide Split, Fields, EqualFold, SameDigits;
    var lines := Split(manifest, '\n');
    forall line ensures LineLists(tk, line, sum, path) <==> LineGives(tk, line, hex, path) {
      if |Fields(line)| >= 2 {
        WordIff(hex, sum, Fields(line)[0]);
      }
    }
    if Lists(tk, manifest, sum, path) {
      var i :| 0 <= i < |lines| && LineLists(tk, lines[i], sum, path);
      assert lines[i] in lines;
    }
    if ListedAs(tk, manifest, hex, path) {
      var line :| line in lines && LineGives(tk, line, hex, path);
      var i :| 0 <= i < |lines| && lines[i] == line;
      assert LineLists(tk, lines[i], sum, path);
    }
  }

  lemma WordIff(hex: string, sum: string, word: string)
    requires IsLowerHex(hex) && SameDigits(hex, sum)
    ensures EqualFold(word, sum) <==> SameDigits(hex, word)
  {
    EqualFoldIff(hex, sum);
    EqualFoldIff(hex, word);
    assert EqualFold(hex, sum);
  }

  /** What the six files of an evidence directory must hold: a summary in order that names the others and this
      directory; a validation log of the stated digest; an attestation in order, about this directory and this
      summary, whose signature checks; an index with its three entries; and a manifest with the digests of log,
      attestation and signature at their paths. */
  ghost predicate Complete(tk: Tools, f: Files, p: string, s: SummaryDoc, a: AttestationDoc) {
    var dir := tk.clean(tk.dir(p));
    var log, att, sig := tk.join(dir, s.logName), tk.join(dir, s.attestationFile), tk.join(dir, s.signatureFile);
    var index, manifest := tk.join(dir, "index.txt"), tk.join(dir, "manifest.sha256");
    && p in f && log in f && att in f && sig in f && index in f && manifest in f
    && tk.schema(f[p]) && tk.summary(f[p]) == Some(s) && tk.attestation(f[att]) == Some(a)
    && tk.base(s.logName) == s.logName && tk.base(s.attestationFile) == s.attestationFile
    && tk.base(s.signatureFile) == s.signatureFile && tk.clean(s.runDir) == dir == tk.clean(a.runDir)
    && a.schemaVersion == 1 && a.generatedAt != "" && a.runDir != "" && a.summarySHA != "" && a.keyID != ""
    && a.alg == "ed25519" && tk.signed("ed25519", a.keyID, f[att], Trim(f[sig]))
    && SameDigits(tk.digest(f[log]), s.logSHA) && SameDigits(tk.digest(f[p]), a.summarySHA)
    && Mentions(f[index], "summary_validation.log\t") && Mentions(f[index], "attestation.json\t")
    && Mentions(f[index], "attestation.sig\t")
    && ListedAs(tk, f[manifest], tk.digest(f[log]), tk.clean(tk.join(s.runDir, s.logName)))
    && ListedAs(tk, f[manifest], tk.digest(f[att]), tk.clean(tk.join(s.runDir, s.attestationFile)))
    && ListedAs(tk, f[manifest], tk.digest(f[sig]), tk.clean(tk.join(s.runDir, s.signatureFile)))
  }

  /** Strict mode accepts exactly the complete directories. */
  lemma AcceptedIff(tk: Tools, f: Files, p: string)
    requires DigestsAreWords(tk)
    ensures Accepted(tk, f, p) <==> exists s, a :: Complete(tk, f, p, s, a)
  {
    hide Complete;
    if Accepted(tk, f, p) {
      var s, a := AcceptedComplete(tk, f, p);
    }
    if s, a :| Complete(tk, f, p, s, a) {
      CompleteAccepted(tk, f, p, s, a);
    }
  }

  lemma AcceptedComplete(tk: Tools, f: Files, p: string) returns (s: SummaryDoc, a: AttestationDoc)
    requires DigestsAreWords(tk) && Accepted(tk, f, p)
    ensures Complete(tk, f, p, s, a)
  {
    hide EqualFold, Contains, Lists, ListedAs, Mentions, SameDigits;
    s := Doc(tk, f, p);
    a := tk.attestation(f[AttestationPath(tk, f, p)]).value;
    EqualFoldIff(tk.digest(f[LogPath(tk, f, p)]), s.logSHA);
    EqualFoldIff(tk.digest(f[p]), a.summarySHA);
    TextsIff(tk, f, p, s);
  }

  lemma CompleteAccepted(tk: Tools, f: Files, p: string, s: SummaryDoc, a: AttestationDoc)
    requires DigestsAreWords(tk) && Complete(tk, f, p, s, a)
    ensures Accepted(tk, f, p)
  {
    hide EqualFold, Contains, Lists, ListedAs, Mentions, SameDigits;
    EqualFoldIff(tk.digest(f[tk.join(tk.clean(tk.dir(p)), s.logName)]), s.logSHA);
    EqualFoldIff(tk.digest(f[p]), a.summarySHA);
    assert SummaryHolds(tk, f, p);
    assert AttestationHolds(tk, f, p);
    TextsIff(tk, f, p, s);
  }

  /** The index and manifest conditions, in both ways of saying them. */
  lemma TextsIff(tk: Tools, f: Files, p: string, s: SummaryDoc)
    requires DigestsAreWords(tk) && SummaryHolds(tk, f, p) && AttestationHolds(tk, f, p) && s == Doc(tk, f, p)
    ensures var index, manifest := InDir(tk, p, "index.txt"), InDir(tk, p, "manifest.sha256");
            ListingsHold(tk, f, p) <==>
              && index in f && manifest in f
              && Mentions(f[index], "summary_validation.log\t") && Mentions(f[index], "attestation.json\t")
              && Mentions(f[index], "attestation.sig\t")
              && ListedAs(tk, f[manifest], tk.digest(f[LogPath(tk, f, p)]), tk.clean(tk.join(s.runDir, s.logName)))
              && ListedAs(tk, f[manifest], tk.digest(f[AttestationPath(tk, f, p)]),
                          tk.clean(tk.join(s.runDir, s.attestationFile)))
              && ListedAs(tk, f[manifest], tk.digest(f[SignaturePath(tk, f, p)]),
                          tk.clean(tk.join(s.runDir, s.signatureFile)))
  {
    hide EqualFold, Contains, Lists, ListedAs, Mentions, SameDigits;
    var index, manifest := InDir(tk, p, "index.txt"), InDir(tk, p, "manifest.sha256");
    if index in f && manifest in f {
      ContainsIff(f[index], "summary_validation.log\t");
      ContainsIff(f[index], "attestation.json\t");
      ContainsIff(f[index], "attestation.sig\t");
      var log := tk.digest(f[LogPath(tk, f, p)]);
      var att, sig := tk.digest(f[AttestationPath(tk, f, p)]), tk.digest(f[SignaturePath(tk, f, p)]);
      EqualFoldIff(log, s.logSHA);
      ListsIff(tk, f[manifest], s.logSHA, log, tk.clean(tk.join(s.runDir, s.logName)));
      SameDigitsItself(att);
      SameDigitsItself(sig);
      ListsIff(tk, f[manifest], att, att, tk.clean(tk.join(s.runDir, s.attestationFile)));
      ListsIff(tk, f[manifest], sig, sig, tk.clean(tk.join(s.runDir, s.signatureFile)));
    }
  }

  lemma SameDigitsItself(hex: string)
    ensures SameDigits(hex, hex)
  {
  }

  // ---- with real keys ---------------------------------------------------------------------------------------

  /** The signature check is `verifyAttestationSignature` in this environment; `bytes` gives a file's bytes. */
  ghost predicate ChecksWith(tk: Tools, c: Attestation.Scheme, w: Attestation.World, bytes: string -> Bytes) {
    forall alg, id, data, sig ::
      tk.signed(alg, id, data, sig) <==> Attestation.SignatureAccepted(c, w, alg, id, bytes(data), sig)
  }

  /** A directory is accepted only if its signature file decodes to a signature of its attestation's bytes under the
      public key that the environment gives for the key id the attestation names. */
  lemma AcceptedIsSigned(tk: Tools, c: Attestation.Scheme, w: Attestation.World, bytes: string -> Bytes,
                         f: Files, p: string)
    returns (s: SummaryDoc, a: AttestationDoc, pub: Bytes, sig: Bytes)
    requires DigestsAreWords(tk) && ChecksWith(tk, c, w, bytes) && Accepted(tk, f, p)
    ensures Complete(tk, f, p, s, a)
    ensures var dir := tk.clean(tk.dir(p));
            && Attestation.PublicKey(c, w, a.keyID) == Ok(pub)
            && Unhex(Trim(f[tk.join(dir, s.signatureFile)])) == Some(sig)
            && c.verify(pub, bytes(f[tk.join(dir, s.attestationFile)]), sig)
  {
    hide Accepted, ListedAs, Mentions, SameDigits, Trim, Unhex, Attestation.PublicKey;
    s, a := AcceptedComplete(tk, f, p);
    var dir := tk.clean(tk.dir(p));
    var file := f[tk.join(dir, s.signatureFile)];
    TrimIdempotent(file);
    pub := Attestation.PublicKey(c, w, a.keyID).value;
    sig := Unhex(Trim(file)).value;
  }

  /** Under enforcement and with no public key configured, nothing is accepted. */
  lemma NoKeyNoAcceptance(tk: Tools, c: Attestation.Scheme, w: Attestation.World, bytes: string -> Bytes,
                          f: Files, p: string)
    requires DigestsAreWords(tk) && ChecksWith(tk, c, w, bytes) && Attestation.NoPublicKey(w) && Attestation.Strict(w)
    ensures !Accepted(tk, f, p)
  {
    hide Accepted, Complete, ChecksWith, Attestation.NoPublicKey, Attestation.Strict, Attestation.PublicKey;
    if Accepted(tk, f, p) {
      var s, a, pub, sig := AcceptedIsSigned(tk, c, w, bytes, f, p);
      Attestation.DevelopmentKey(c, w, a.keyID);
    }
  }

  /** A line as `sha256sum` prints it. */
  function SumLine(hex: string, path: string): string {
    hex + "  " + path
  }

  predicate OneWord(path: string) {
    path != "" && forall i :: 0 <= i < |path| ==> !IsSpace(path[i])
  }

  lemma SumLineGives(tk: Tools, hex: string, path: string)
    requires hex != "" && IsLowerHex(hex) && OneWord(path)
    ensures LineGives(tk, SumLine(hex, path), hex, tk.clean(path)) && '\n' !in SumLine(hex, path)
  {
    hide Fields;
    ManifestLineIff(hex, path);
    SameDigitsItself(hex);
  }

  lemma LineListed(tk: Tools, lines: seq<string>, i: nat, hex: string, path: string)
    requires lines != [] && Free(lines, '\n') && i < |lines| && LineGives(tk, lines[i], hex, path)
    ensures ListedAs(tk, Join(lines, '\n'), hex, path)
  {
    hide Split, Join, LineGives;
    SplitJoin(lines, '\n');
    assert lines[i] in Split(Join(lines, '\n'), '\n');
  }

  /** The directory as it is written for a run: the attestation states the summary's digest and is signed with the
      key of this pair, the index has its entries, and the manifest is the three `sha256sum` lines. */
  ghost predicate WrittenFor(tk: Tools, c: Attestation.Scheme, priv: Bytes, keyID: string, bytes: string -> Bytes,
                             f: Files, p: string, s: SummaryDoc, at: string) {
    var dir := tk.clean(tk.dir(p));
    var log, att, sig := tk.join(dir, s.logName), tk.join(dir, s.attestationFile), tk.join(dir, s.signatureFile);
    var index, manifest := tk.join(dir, "index.txt"), tk.join(dir, "manifest.sha256");
    && p in f && log in f && att in f && sig in f && index in f && manifest in f
    && tk.schema(f[p]) && tk.summary(f[p]) == Some(s) && tk.clean(s.runDir) == dir && s.runDir != ""
    && tk.base(s.logName) == s.logName && tk.base(s.attestationFile) == s.attestationFile
    && tk.base(s.signatureFile) == s.signatureFile && s.logSHA == tk.digest(f[log])
    && tk.attestation(f[att]) == Some(AttestationDoc(1, at, s.runDir, tk.digest(f[p]), keyID, "ed25519"))
    && f[sig] == Attestation.SignatureFile(c, priv, bytes(f[att]))
    && Mentions(f[index], "summary_validation.log\t") && Mentions(f[index], "attestation.json\t")
    && Mentions(f[index], "attestation.sig\t")
    && OneWord(tk.join(s.runDir, s.logName)) && OneWord(tk.join(s.runDir, s.attestationFile))
    && OneWord(tk.join(s.runDir, s.signatureFile))
    && f[manifest] == Join([SumLine(tk.digest(f[log]), tk.join(s.runDir, s.logName)),
                            SumLine(tk.digest(f[att]), tk.join(s.runDir, s.attestationFile)),
                            SumLine(tk.digest(f[sig]), tk.join(s.runDir, s.signatureFile))], '\n')
  }

  lemma WrittenFiles(tk: Tools, c: Attestation.Scheme, priv: Bytes, keyID: string, bytes: string -> Bytes,
                     f: Files, p: string, s: SummaryDoc, at: string)
    requires WrittenFor(tk, c, priv, keyID, bytes, f, p, s, at)
    ensures var dir := tk.clean(tk.dir(p));
            var att, sig := tk.join(dir, s.attestationFile), tk.join(dir, s.signatureFile);
            p in f && att in f && sig in f && f[sig] == Attestation.SignatureFile(c, priv, bytes(f[att]))
  {
    hide Mentions, OneWord, Join;
  }

  lemma TrimmedSignature(c: Attestation.Scheme, w: Attestation.World, alg: string, id: string, data: Bytes,
                         file: string)
    ensures Attestation.SignatureAccepted(c, w, alg, id, data, Trim(file))
            == Attestation.SignatureAccepted(c, w, alg, id, data, file)
  {
    hide Trim, Unhex, Attestation.PublicKey;
    TrimIdempotent(file);
  }

  lemma WrittenComplete(tk: Tools, c: Attestation.Scheme, priv: Bytes, keyID: string, bytes: string -> Bytes,
                        f: Files, p: string, s: SummaryDoc, at: string)
    requires WrittenFor(tk, c, priv, keyID, bytes, f, p, s, at) && keyID != "" && at != ""
    requires DigestsAreWords(tk) && forall x :: tk.digest(x) != ""
    requires var dir := tk.clean(tk.dir(p));
             var att, sig := tk.join(dir, s.attestationFile), tk.join(dir, s.signatureFile);
             att in f && sig in f ==> tk.signed("ed25519", keyID, f[att], Trim(f[sig]))
    ensures Complete(tk, f, p, s, AttestationDoc(1, at, s.runDir, tk.digest(f[p]), keyID, "ed25519"))
  {
    hide Mentions, OneWord, Join, ListedAs, SameDigits, Trim, LineGives, SumLine;
    var dir := tk.clean(tk.dir(p));
    var x := tk.digest(f[tk.join(dir, s.logName)]);
    var y, z := tk.digest(f[tk.join(dir, s.attestationFile)]), tk.digest(f[tk.join(dir, s.signatureFile)]);
    SameDigitsItself(x);
    SameDigitsItself(tk.digest(f[p]));
    ThreeListed(tk, x, tk.join(s.runDir, s.logName), y, tk.join(s.runDir, s.attestationFile), z,
                tk.join(s.runDir, s.signatureFile));
  }

  lemma ThreeListed(tk: Tools, x: string, a: string, y: string, b: string, z: string, c: string)
    requires x != "" && y != "" && z != "" && IsLowerHex(x) && IsLowerHex(y) && IsLowerHex(z)
    requires OneWord(a) && OneWord(b) && OneWord(c)
    ensures var manifest := Join([SumLine(x, a), SumLine(y, b), SumLine(z, c)], '\n');
            && ListedAs(tk, manifest, x, tk.clean(a)) && ListedAs(tk, manifest, y, tk.clean(b))
            && ListedAs(tk, manifest, z, tk.clean(c))
  {
    hide OneWord, Join, ListedAs, LineGives, SumLine;
    var lines := [SumLine(x, a), SumLine(y, b), SumLine(z, c)];
    SumLineGives(tk, x, a);
    SumLineGives(tk, y, b);
    SumLineGives(tk, z, c);
    LineListed(tk, lines, 0, x, tk.clean(a));
    LineListed(tk, lines, 1, y, tk.clean(b));
    LineListed(tk, lines, 2, z, tk.clean(c));
  }

  /** From key generation to acceptance: a directory written with the generated private key, as the signer resolves
      it, is accepted where the generated public key is configured. */
  lemma WrittenAccepted(tk: Tools, c: Attestation.Scheme, w: Attestation.World, cfg: Attestation.Config,
                        pub: Bytes, priv: Bytes, privatePath: string, publicPath: string, bytes: string -> Bytes,
                        f: Files, p: string, s: SummaryDoc, at: string)
    requires DigestsAreWords(tk) && (forall x :: tk.digest(x) != "") && ChecksWith(tk, c, w, bytes) && at != ""
    requires Attestation.IsKeyPair(c, pub, priv) && cfg.keyID != "" && (cfg.ring ==> KeyRing.CleanId(cfg.keyID))
    requires Attestation.ReadBack(w, cfg, Attestation.Rendered(cfg, pub, priv), privatePath, publicPath)
    requires forall data :: c.verify(pub, data, c.sign(priv, data))
    requires Attestation.PrivateKey(c, w, cfg.keyID).Ok? ==>
               WrittenFor(tk, c, Attestation.PrivateKey(c, w, cfg.keyID).value, cfg.keyID, bytes, f, p, s, at)
    ensures Attestation.PrivateKey(c, w, cfg.keyID).Ok? && Accepted(tk, f, p)
  {
    hide Accepted, Complete, WrittenFor, Attestation.PrivateKey, Attestation.ReadBack, Attestation.Rendered;
    hide Attestation.SignatureAccepted, Trim;
    var signer := Attestation.PrivateKey(c, w, cfg.keyID);
    Attestation.GeneratedResolve(c, w, cfg, pub, priv, privatePath, publicPath);
    var dir := tk.clean(tk.dir(p));
    WrittenFiles(tk, c, priv, cfg.keyID, bytes, f, p, s, at);
    var data, file := f[tk.join(dir, s.attestationFile)], f[tk.join(dir, s.signatureFile)];
    Attestation.GeneratedSignatureAccepted(c, w, cfg, pub, priv, privatePath, publicPath, bytes(data));
    TrimmedSignature(c, w, "ed25519", cfg.keyID, bytes(data), file);
    WrittenComplete(tk, c, priv, cfg.keyID, bytes, f, p, s, at);
    CompleteAccepted(tk, f, p, s, AttestationDoc(1, at, s.runDir, tk.digest(f[p]), cfg.keyID, "ed25519"));
  }
}
