/** Backup archives: staging files, sealing them with checksums, and validating them offline. */
module Archive {
  import opened Common
  import opened Split
  import opened Ndjson
  import C = Checksums

  const MANIFEST := "manifest.json"
  const SUMS_FILE := "SHA256SUMS"
  const CURRENT_SCHEMA_VERSION := "1.0.0"
  const MISSING := "<missing>"

  type Files = map<string, string>

  /** `details` stands for the fields that sealing and validation never look at. */
  datatype Manifest = Manifest(schemaVersion: string, fileChecksums: C.Sums, details: string)

  function Major(version: string): string {
    version[..IndexOf(version, '.')]
  }

  predicate Compatible(m: Manifest) {
    Major(m.schemaVersion) == Major(CURRENT_SCHEMA_VERSION)
  }

  /** Compatible versions are "1" and those that start with "1.". */
  lemma {:induction false} CompatibleMeansMajorOne(m: Manifest)
    ensures Compatible(m) <==> m.schemaVersion == "1" || "1." <= m.schemaVersion
  {
    var v := m.schemaVersion;
    assert CURRENT_SCHEMA_VERSION == "1" + ['.'] + "0.0";
    IndexOfConcat("1", '.', "0.0");
    assert Major(CURRENT_SCHEMA_VERSION) == "1";
    var i := IndexOf(v, '.');
    if Compatible(m) {
      assert v[..i] == "1";
      if i < |v| { assert v[..2] == "1."; }
    }
    if "1." <= v {
      assert v == "1" + ['.'] + v[2..];
      IndexOfConcat("1", '.', v[2..]);
    }
  }

  /** The digest function and the manifest serialiser, both foreign. */
  datatype Env = Env(sha: string -> string, json: Codec<Manifest>)

  // ------------------------------------------------------------------- staging

  /**
   What a caller does with a writer before finalizing it: open a data file, write a chunk through the
   open handle of a data file, or add the manifest.  Calls for different files may interleave.
   */
  datatype Op = Create(name: string) | Write(name: string, chunk: string) | AddManifest(manifest: Manifest)

  datatype Staging = Staging(files: Files, dataFiles: seq<string>)

  const Empty := Staging(map[], [])

  function Stage(env: Env, s: Staging, op: Op): Staging {
    match op
    case Create(name) => Staging(s.files[name := ""], s.dataFiles + [name])
    case Write(name, chunk) =>
      if name in s.dataFiles && name in s.files then s.(files := s.files[name := s.files[name] + chunk]) else s
    case AddManifest(m) => s.(files := s.files[MANIFEST := env.json.encode(m)])
  }

  function Staged(env: Env, ops: seq<Op>): Staging {
    if ops == [] then Empty else Stage(env, Staged(env, ops[..|ops| - 1]), ops[|ops| - 1])
  }

  /** The manifest added last. */
  function LastManifest(ops: seq<Op>): Option<Manifest> {
    if ops == [] then None
    else if ops[|ops| - 1].AddManifest? then Some(ops[|ops| - 1].manifest)
    else LastManifest(ops[..|ops| - 1])
  }

  /** The digests of the data files that exist. */
  function DigestsOf(env: Env, s: Staging): C.Sums {
    map n | n in s.dataFiles && n in s.files :: env.sha(s.files[n])
  }

  /** What ends up in the archive; fails only if the staged manifest cannot be parsed. */
  ghost function Sealed(env: Env, s: Staging): Option<Files> {
    var sums := DigestsOf(env, s);
    var files := s.files[SUMS_FILE := C.FileText(sums)];
    if MANIFEST !in files then Some(files)
    else
      var m := env.json.decode(files[MANIFEST]);
      if m.None? then None
      else Some(files[MANIFEST := env.json.encode(m.value.(fileChecksums := sums))])
  }

  class ArchiveWriter {
    var files: Files
    var dataFiles: seq<string>
    const env: Env

    constructor (env: Env)
      ensures View() == Empty && this.env == env
    {
      files, dataFiles := map[], [];
      this.env := env;
    }

    function View(): Staging
      reads this
    {
      Staging(files, dataFiles)
    }

    /** `create_ndjson_writer`: an empty file, listed as data. */
    method CreateNdjson(name: string)
      modifies this
      ensures View() == Stage(env, old(View()), Create(name))
    {
      files := files[name := ""];
      dataFiles := dataFiles + [name];
    }

    /** What a data file's open handle appends. */
    method WriteThrough(name: string, chunk: string)
      modifies this
      ensures View() == Stage(env, old(View()), Write(name, chunk))
    {
      if name in dataFiles && name in files {
        files := files[name := files[name] + chunk];
      }
    }

    method AddManifest(m: Manifest)
      modifies this
      ensures View() == Stage(env, old(View()), Op.AddManifest(m))
    {
      files := files[MANIFEST := env.json.encode(m)];
    }

    method Finalize() returns (r: Option<Files>)
      modifies this
      ensures r == Sealed(env, old(View()))
    {
      var sums: C.Sums := map[];
      for i := 0 to |dataFiles|
        invariant View() == old(View())
        invariant sums == map n | n in dataFiles[..i] && n in files :: env.sha(files[n])
      {
        assert dataFiles[..i + 1] == dataFiles[..i] + [dataFiles[i]];
        if dataFiles[i] in files {
          sums := sums[dataFiles[i] := env.sha(files[dataFiles[i]])];
        }
      }
      assert dataFiles[..|dataFiles|] == dataFiles;
      var text := C.WriteChecksums(sums);
      files := files[SUMS_FILE := text];
      if MANIFEST in files {
        var m := env.json.decode(files[MANIFEST]);
        if m.None? {
          return None;
        }
        files := files[MANIFEST := env.json.encode(m.value.(fileChecksums := sums))];
      }
      return Some(files);
    }
  }

  // ---------------------------------------------------------------- verification

  datatype Mismatch = Mismatch(filename: string, expected: string, actual: string)

  /** What is wrong with a listed file, if anything. */
  function Verdict(env: Env, files: Files, sums: C.Sums, n: string): Option<Mismatch>
    requires n in sums
  {
    if n !in files then Some(Mismatch(n, sums[n], MISSING))
    else if env.sha(files[n]) != sums[n] then Some(Mismatch(n, sums[n], env.sha(files[n])))
    else None
  }

  predicate Intact(env: Env, files: Files, sums: C.Sums) {
    forall n :: n in sums ==> n in files && env.sha(files[n]) == sums[n]
  }

  /** Every listed file that exists can be read; `bad` names the files that cannot. */
  predicate Readable(files: Files, bad: set<string>, sums: C.Sums) {
    forall n :: n in sums && n in files ==> n !in bad
  }

  /** Exactly the listed files that are missing or changed, each once. */
  ghost predicate ExactMismatches(env: Env, files: Files, sums: C.Sums, ms: seq<Mismatch>) {
    && (forall m :: m in ms <==> m.filename in sums && Verdict(env, files, sums, m.filename) == Some(m))
    && (forall i, j :: 0 <= i < j < |ms| ==> ms[i].filename != ms[j].filename)
  }

  /**
   `verify_checksums`, in whatever order the map yields its entries.  It fails exactly if a listed file
   exists but cannot be read, and then on one such file.
   */
  method VerifyChecksums(env: Env, files: Files, bad: set<string>, sums: C.Sums) returns (r: Result<seq<Mismatch>, string>)
    ensures r.Ok? <==> Readable(files, bad, sums)
    ensures r.Ok? ==> ExactMismatches(env, files, sums, r.value) && (r.value == [] <==> Intact(env, files, sums))
    ensures r.Ok? ==> forall m :: m in r.value ==>
              && m.filename in sums && m.expected == sums[m.filename] && (m.filename in files ==> m.actual != m.expected)
              && m.actual == if m.filename in files then env.sha(files[m.filename]) else "<missing>"
    ensures r.Err? ==> r.error in sums && r.error in files && r.error in bad
  {
    var ms: seq<Mismatch> := [];
    var rest := sums.Keys;
    while rest != {}
      invariant rest <= sums.Keys
      invariant forall n :: n in sums && n !in rest && n in files ==> n !in bad
      invariant forall m: Mismatch :: m in ms <==> m.filename in sums.Keys - rest && Verdict(env, files, sums, m.filename) == Some(m)
      invariant forall i, j :: 0 <= i < j < |ms| ==> ms[i].filename != ms[j].filename
    {
      var n :| n in rest;
      rest := rest - {n};
      if n !in files {
        ms := ms + [Mismatch(n, sums[n], MISSING)];
      } else if n in bad {
        return Err(n);
      } else if env.sha(files[n]) != sums[n] {
        ms := ms + [Mismatch(n, sums[n], env.sha(files[n]))];
      }
    }
    MismatchesIffNotIntact(env, files, sums, ms);
    r := Ok(ms);
  }

  lemma {:induction false} MismatchesIffNotIntact(env: Env, files: Files, sums: C.Sums, ms: seq<Mismatch>)
    requires ExactMismatches(env, files, sums, ms)
    ensures ms == [] <==> Intact(env, files, sums)
  {
    if !Intact(env, files, sums) {
      var n :| n in sums && !(n in files && env.sha(files[n]) == sums[n]);
      assert Verdict(env, files, sums, n).value in ms;
    }
    if ms != [] {
      assert ms[0] in ms;
    }
  }

  datatype Note =
    | CannotOpen
    | IncompatibleSchema(version: string)
    | ChecksumMismatch(m: Mismatch)
    | VerificationFailed(name: string)

  datatype Report = Report(valid: bool, manifestOk: bool, schemaCompatible: bool, mismatches: seq<Mismatch>, errors: seq<Note>)

  function Notes(ms: seq<Mismatch>): (ns: seq<Note>)
    ensures |ns| == |ms| && forall i :: 0 <= i < |ms| ==> ns[i] == ChecksumMismatch(ms[i])
  {
    if ms == [] then [] else Notes(ms[..|ms| - 1]) + [ChecksumMismatch(ms[|ms| - 1])]
  }

  /** One error line per mismatch. */
  method AddNotes(errors: seq<Note>, ms: seq<Mismatch>) returns (r: seq<Note>)
    ensures r == errors + Notes(ms)
  {
    r := errors;
    for i := 0 to |ms|
      invariant r == errors + Notes(ms[..i])
    {
      assert ms[..i + 1][..i] == ms[..i];
      r := r + [ChecksumMismatch(ms[i])];
    }
    assert ms[..|ms|] == ms;
  }

  /** `ArchiveReader::open` on extracted files. */
  function Open(env: Env, files: Files, bad: set<string>): Option<Manifest> {
    if MANIFEST !in files || MANIFEST in bad then None else env.json.decode(files[MANIFEST])
  }

  /** The archive passes every check. */
  predicate Passes(env: Env, files: Files, bad: set<string>) {
    var m := Open(env, files, bad);
    && m.Some? && Compatible(m.value)
    && Readable(files, bad, m.value.fileChecksums) && Intact(env, files, m.value.fileChecksums)
  }

  function SchemaNotes(m: Manifest): seq<Note> {
    if Compatible(m) then [] else [IncompatibleSchema(m.schemaVersion)]
  }

  /** `validate_archive` on extracted files. */
  method Validate(env: Env, files: Files, bad: set<string>) returns (r: Report)
    ensures r.valid <==> r.errors == []
    ensures r.valid <==> Passes(env, files, bad)
    ensures r.manifestOk <==> Open(env, files, bad).Some?
    ensures !r.manifestOk ==> r == Report(false, false, false, [], [CannotOpen])
    ensures r.manifestOk ==> Detailed(env, files, bad, Open(env, files, bad).value, r)
  {
    r := Report(false, false, false, [], []);
    var manifest := Open(env, files, bad);
    if manifest.None? {
      r := r.(errors := r.errors + [CannotOpen]);
      return;
    }
    var m := manifest.value;
    r := r.(manifestOk := true, schemaCompatible := Compatible(m));
    if !r.schemaCompatible {
      r := r.(errors := r.errors + [IncompatibleSchema(m.schemaVersion)]);
    }
    var verified := VerifyChecksums(env, files, bad, m.fileChecksums);
    match verified {
      case Ok(ms) =>
        var errors := AddNotes(r.errors, ms);
        r := r.(errors := errors, mismatches := ms);
      case Err(name) =>
        r := r.(errors := r.errors + [VerificationFailed(name)]);
    }
    r := r.(valid := r.manifestOk && r.schemaCompatible && r.mismatches == [] && r.errors == []);
  }

  /** The report on an archive whose manifest could be opened. */
  ghost predicate Detailed(env: Env, files: Files, bad: set<string>, m: Manifest, r: Report) {
    && (r.schemaCompatible <==> Compatible(m))
    && (Readable(files, bad, m.fileChecksums) ==>
          ExactMismatches(env, files, m.fileChecksums, r.mismatches) && r.errors == SchemaNotes(m) + Notes(r.mismatches))
    && (!Readable(files, bad, m.fileChecksums) ==>
          r.mismatches == [] && exists n :: n in m.fileChecksums && n in bad && r.errors == SchemaNotes(m) + [VerificationFailed(n)])
  }

  // ------------------------------------------------------------------ end to end

  ghost predicate ListsStaged(s: Staging) {
    forall n :: n in s.dataFiles ==> n in s.files
  }

  lemma {:induction false} StageKeepsListed(env: Env, s: Staging, op: Op)
    requires ListsStaged(s)
    ensures ListsStaged(Stage(env, s, op))
  {
    var s' := Stage(env, s, op);
    forall n | n in s'.dataFiles ensures n in s'.files {
      assert n in s.dataFiles || (op.Create? && n == op.name);
    }
  }

  lemma {:induction false} DataIsStaged(env: Env, ops: seq<Op>)
    ensures ListsStaged(Staged(env, ops))
  {
    if ops != [] {
      DataIsStaged(env, ops[..|ops| - 1]);
      StageKeepsListed(env, Staged(env, ops[..|ops| - 1]), ops[|ops| - 1]);
    }
  }

  /** The manifest as staged, if there is one that parses. */
  function StagedManifest(env: Env, s: Staging): Option<Manifest> {
    if MANIFEST in s.files then env.json.decode(s.files[MANIFEST]) else None
  }

  /** What is in a sealed archive that has a manifest. */
  lemma {:induction false} SealedContents(env: Env, s: Staging)
    requires RoundTrips(env.json) && StagedManifest(env, s).Some?
    ensures var sums := DigestsOf(env, s); var m := StagedManifest(env, s).value.(fileChecksums := sums);
            && Sealed(env, s).Some?
            && Open(env, Sealed(env, s).value, {}) == Some(m)
            && MANIFEST in Sealed(env, s).value && Sealed(env, s).value[MANIFEST] == env.json.encode(m)
            && SUMS_FILE in Sealed(env, s).value && Sealed(env, s).value[SUMS_FILE] == C.FileText(sums)
            && (forall n :: n in s.files && n != SUMS_FILE && n != MANIFEST ==>
                  n in Sealed(env, s).value && Sealed(env, s).value[n] == s.files[n])
  {
    var m := StagedManifest(env, s).value.(fileChecksums := DigestsOf(env, s));
    assert env.json.decode(env.json.encode(m)) == Some(m);
    assert SUMS_FILE != MANIFEST;
  }

  /** Rewriting a reserved file at sealing time did not change a digest taken before. */
  ghost predicate ReservedNamesKeepDigest(env: Env, s: Staging)
    requires StagedManifest(env, s).Some?
  {
    var sums := DigestsOf(env, s);
    && (SUMS_FILE in sums ==> env.sha(C.FileText(sums)) == sums[SUMS_FILE])
    && (MANIFEST in sums ==> env.sha(env.json.encode(StagedManifest(env, s).value.(fileChecksums := sums))) == sums[MANIFEST])
  }

  /**
   For every sequence of writer calls: sealing fails exactly on a staged manifest that does not parse, and
   the sealed archive passes validation exactly when it has a manifest of the current major version and no
   data file under a reserved name had its digest changed by sealing.
   */
  lemma {:induction false} SealedArchivePassesIff(env: Env, ops: seq<Op>)
    requires RoundTrips(env.json)
    ensures var s := Staged(env, ops); var m := StagedManifest(env, s);
            && (Sealed(env, s).Some? <==> MANIFEST in s.files ==> m.Some?)
            && (Sealed(env, s).Some? ==>
                (Passes(env, Sealed(env, s).value, {}) <==>
                 m.Some? && Compatible(m.value) && ReservedNamesKeepDigest(env, s)))
  {
    var s := Staged(env, ops);
    DataIsStaged(env, ops);
    assert SUMS_FILE != MANIFEST;
    if StagedManifest(env, s).Some? {
      SealedContents(env, s);
      PassesIffReservedKeep(env, s);
    }
  }

  lemma {:induction false} PassesIffReservedKeep(env: Env, s: Staging)
    requires RoundTrips(env.json) && StagedManifest(env, s).Some? && Sealed(env, s).Some?
    ensures Passes(env, Sealed(env, s).value, {}) <==>
            Compatible(StagedManifest(env, s).value) && ReservedNamesKeepDigest(env, s)
  {
    SealedContents(env, s);
    var files, sums := Sealed(env, s).value, DigestsOf(env, s);
    assert Passes(env, files, {}) <==> Compatible(StagedManifest(env, s).value) && Intact(env, files, sums);
    assert Intact(env, files, sums) <==> ReservedNamesKeepDigest(env, s) by {
      assert forall n :: n in sums && n != SUMS_FILE && n != MANIFEST ==> n in files && env.sha(files[n]) == sums[n];
    }
  }

  /** The ordinary case: no data file is created under a reserved name. */
  predicate AvoidsReserved(ops: seq<Op>) {
    forall i :: 0 <= i < |ops| && ops[i].Create? ==> ops[i].name != MANIFEST && ops[i].name != SUMS_FILE
  }

  lemma {:induction false} ReservedNotListed(env: Env, ops: seq<Op>)
    requires RoundTrips(env.json) && AvoidsReserved(ops)
    ensures var s := Staged(env, ops);
            MANIFEST !in s.dataFiles && SUMS_FILE !in s.dataFiles && StagedManifest(env, s) == LastManifest(ops)
            && (MANIFEST in s.files <==> LastManifest(ops).Some?)
  {
    if ops != [] {
      var op := ops[|ops| - 1];
      ReservedNotListed(env, ops[..|ops| - 1]);
      if op.AddManifest? {
        assert env.json.decode(env.json.encode(op.manifest)) == Some(op.manifest);
      }
    }
  }

  /** With the reserved names avoided, sealing succeeds and only the manifest added last decides. */
  lemma {:induction false} SealedArchivePasses(env: Env, ops: seq<Op>)
    requires RoundTrips(env.json) && AvoidsReserved(ops)
    ensures Sealed(env, Staged(env, ops)).Some?
    ensures Passes(env, Sealed(env, Staged(env, ops)).value, {}) <==>
            LastManifest(ops).Some? && Compatible(LastManifest(ops).value)
  {
    SealedArchivePassesIff(env, ops);
    ReservedNotListed(env, ops);
  }

  /** A data file called SHA256SUMS makes a well-formed archive invalid; here with the identity as digest. */
  lemma {:induction false} SumsNameInvalidates(json: Codec<Manifest>, details: string)
    requires RoundTrips(json)
    ensures var env := Env(x => x, json);
            var ops := [Create(SUMS_FILE), AddManifest(Manifest(CURRENT_SCHEMA_VERSION, map[], details))];
            Sealed(env, Staged(env, ops)).Some? && !Passes(env, Sealed(env, Staged(env, ops)).value, {})
  {
    var env := Env(x => x, json);
    var m := Manifest(CURRENT_SCHEMA_VERSION, map[], details);
    var ops := [Create(SUMS_FILE), AddManifest(m)];
    assert ops[..1] == [Create(SUMS_FILE)] && ops[..1][..0] == [];
    assert Staged(env, ops[..1]) == Staging(map[SUMS_FILE := ""], [SUMS_FILE]);
    assert SUMS_FILE != MANIFEST;
    var s := Staged(env, ops);
    assert s == Staging(map[SUMS_FILE := "", MANIFEST := json.encode(m)], [SUMS_FILE]);
    assert json.decode(json.encode(m)) == Some(m);
    SealedArchivePassesIff(env, ops);
    var sums := DigestsOf(env, s);
    assert SUMS_FILE in sums && sums[SUMS_FILE] == "";
    C.FileTextNotEmpty(sums, SUMS_FILE);
  }

  /**
   Tampering with the data of a sealed archive is detected exactly: if the manifest is left alone and
   no replacement collides with the digest of what it replaces, the archive still passes exactly when
   every data file is unchanged.
   */
  lemma {:induction false} TamperingIsDetected(env: Env, ops: seq<Op>, files: Files)
    requires RoundTrips(env.json) && AvoidsReserved(ops)
    requires LastManifest(ops).Some? && Compatible(LastManifest(ops).value)
    requires Sealed(env, Staged(env, ops)).Some?
    requires MANIFEST in files && MANIFEST in Sealed(env, Staged(env, ops)).value
    requires files[MANIFEST] == Sealed(env, Staged(env, ops)).value[MANIFEST]
    requires forall n :: n in Staged(env, ops).files && n in files && env.sha(files[n]) == env.sha(Staged(env, ops).files[n])
               ==> files[n] == Staged(env, ops).files[n]
    ensures var s := Staged(env, ops);
            Passes(env, files, {}) <==> forall n :: n in s.dataFiles ==> n in files && n in s.files && files[n] == s.files[n]
  {
    var s := Staged(env, ops);
    ReservedNotListed(env, ops);
    DataIsStaged(env, ops);
    SealedContents(env, s);
    assert Open(env, files, {}) == Some(LastManifest(ops).value.(fileChecksums := DigestsOf(env, s)));
  }

  /** The SHA256SUMS member can be read back to the manifest's checksums exactly when the names allow it. */
  lemma {:induction false} SumsFileAgreesWithManifest(env: Env, ops: seq<Op>)
    requires RoundTrips(env.json) && StagedManifest(env, Staged(env, ops)).Some?
    requires forall x :: C.CleanHash(env.sha(x))
    ensures Sealed(env, Staged(env, ops)).Some?
    ensures var files := Sealed(env, Staged(env, ops)).value;
            && Open(env, files, {}).Some? && SUMS_FILE in files
            && (C.ReadText(files[SUMS_FILE]) == Ok(Open(env, files, {}).value.fileChecksums) <==>
                forall n :: n in Staged(env, ops).dataFiles ==> C.CleanName(n))
  {
    var s := Staged(env, ops);
    DataIsStaged(env, ops);
    SealedContents(env, s);
    C.ChecksumsRoundTrip(DigestsOf(env, s));
    assert forall n :: n in s.dataFiles <==> n in DigestsOf(env, s);
  }

  // -------------------------------------------------------------- records survive

  /** The chunks written to `name` since it was last created, if it was. */
  function Chunks(ops: seq<Op>, name: string): Option<seq<string>> {
    if ops == [] then None
    else
      var before, op := Chunks(ops[..|ops| - 1], name), ops[|ops| - 1];
      match op
      case Create(n) => if n == name then Some([]) else before
      case Write(n, chunk) => if n == name && before.Some? then Some(before.value + [chunk]) else before
      case AddManifest(_) => before
  }

  function Concat(chunks: seq<string>): string {
    if chunks == [] then "" else Concat(chunks[..|chunks| - 1]) + chunks[|chunks| - 1]
  }

  /** However the calls interleave, a data file holds what was written to it. */
  lemma {:induction false} FileHoldsItsChunks(env: Env, ops: seq<Op>, name: string)
    requires name != MANIFEST
    ensures var s := Staged(env, ops);
            && (name in s.files <==> Chunks(ops, name).Some?) && (name in s.files <==> name in s.dataFiles)
            && (Chunks(ops, name).Some? ==> s.files[name] == Concat(Chunks(ops, name).value))
  {
    if ops != [] {
      FileHoldsItsChunks(env, ops[..|ops| - 1], name);
    }
  }

  /** One chunk per record, as the NDJSON writer produces them. */
  function RecordChunks<V>(vs: seq<V>, encode: V -> string): seq<string> {
    if vs == [] then [] else RecordChunks(vs[..|vs| - 1], encode) + [encode(vs[|vs| - 1]) + "\n"]
  }

  lemma {:induction false} ConcatOfRecordChunks<V>(vs: seq<V>, encode: V -> string)
    ensures Concat(RecordChunks(vs, encode)) == Written(vs, encode)
  {
    if vs != [] {
      var front, v := vs[..|vs| - 1], vs[|vs| - 1];
      ConcatOfRecordChunks(front, encode);
      WrittenAppend(front, v, encode);
      assert vs == front + [v];
      var chunks := RecordChunks(vs, encode);
      assert chunks[..|chunks| - 1] == RecordChunks(front, encode);
    }
  }

  /**
   Records written under an unreserved name come back from the sealed archive, all of them and in order,
   whatever other files were written in between.
   */
  lemma {:induction false} RecordsSurvive<V(!new)>(env: Env, c: Codec<V>, ops: seq<Op>, name: string, vs: seq<V>)
    requires RoundTrips(env.json) && RoundTrips(c) && OneLine(c)
    requires name != MANIFEST && name != SUMS_FILE && Sealed(env, Staged(env, ops)).Some?
    requires Chunks(ops, name) == Some(RecordChunks(vs, c.encode))
    ensures var files := Sealed(env, Staged(env, ops)).value;
            name in files && ReadAll(files[name], c.decode) == Records(vs)
  {
    FileHoldsItsChunks(env, ops, name);
    ConcatOfRecordChunks(vs, c.encode);
    NdjsonRoundTrip(vs, c);
  }
}
