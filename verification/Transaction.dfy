/**
 * The storage initializer's staging transaction: one run as the sequence of filesystem effects it
 * performs. A crash keeps a prefix of that sequence; a failing call keeps a prefix and then runs the
 * deferred cleanup.
 */
module Transaction {
  import opened Names
  import opened Tree

  datatype Option<+T> = None | Some(value: T)

  const DOWNLOADING := "downloading"
  const COMMITTING := "committing"

  datatype StagingState = StagingState(subject: string, phase: string, files: seq<string>)

  /** The verification record, without its key and certificate annotations. */
  datatype Record = Record(
    subject: string, scheme: string,
    signatureVerified: bool, attestationVerified: bool, sbomVerified: bool,
    signatureDigest: string, attestationUri: string, sbomDigest: string,
    contentDigest: string, contentIntegrityVerified: bool, error: string)
  {
    predicate Verified() {
      && error == "" && signatureVerified && attestationVerified && sbomVerified
      && signatureDigest != "" && attestationUri != "" && sbomDigest != ""
    }
  }

  /** SHA-256 in hexadecimal and the JSON codecs, which the transaction only calls. */
  datatype Host = Host(
    hash: string -> string,
    encodeState: StagingState -> string, parseState: string -> Option<StagingState>,
    encodeRecord: Record -> string, parseRecord: string -> Option<Record>)

  ghost predicate CollisionFree(h: Host) {
    forall a, b :: h.hash(a) == h.hash(b) ==> a == b
  }

  /** What is encoded is parsed back; an empty file is not JSON. */
  ghost predicate Faithful(h: Host) {
    && (forall s :: h.parseState(h.encodeState(s)) == Some(s))
    && (forall r :: h.parseRecord(h.encodeRecord(r)) == Some(r))
    && h.parseState("") == None && h.parseRecord("") == None
  }

  // ---- Inputs of one run -------------------------------------------------------------

  /** The digest found in the signature output and what the two attestation checks printed, or a failure. */
  datatype Cosign = CosignFails | CosignOutput(manifestDigest: string, provenance: string, sbom: string)

  /** Where the record path leads when a link stands there: the top-level entry of that name. */
  function RecordLink(disk: Disk): Option<string> {
    if RECORD_DIR in disk && disk[RECORD_DIR].Dir? && RECORD_FILE in disk[RECORD_DIR].children then
      match disk[RECORD_DIR].children[RECORD_FILE] case Symlink(target) => Some(target) case _ => None
    else None
  }

  /** No link or device where the state goes, and no device where the record goes. */
  predicate Ordinary(disk: Disk) {
    && (STATE_FILE in disk ==> disk[STATE_FILE].File? || disk[STATE_FILE].Dir?)
    && (RECORD_DIR in disk && disk[RECORD_DIR].Dir? && RECORD_FILE in disk[RECORD_DIR].children ==>
          !disk[RECORD_DIR].children[RECORD_FILE].Special?)
    && (RecordLink(disk).Some? && RecordLink(disk).value in disk ==> !disk[RecordLink(disk).value].Special?)
  }

  type Payload = disk: Disk | Ordinary(disk) witness map[]

  datatype Run = Run(
    uri: string, skipChecksum: bool, clientFound: bool,
    partial: Payload, payload: Payload, pullSucceeds: bool,
    verifierConfigured: bool, cosign: Cosign)

  function SchemeOf(uri: string): Option<string> {
    if |uri| < 3 then None
    else if uri[..3] == "://" then Some("")
    else match SchemeOf(uri[1..]) case None => None case Some(s) => Some([uri[0]] + s)
  }

  predicate IsOci(uri: string) {
    SchemeOf(uri) == Some("oci") || SchemeOf(uri) == Some("ocis")
  }

  ghost function Digest(h: Host, disk: Disk): Option<string> {
    if Clean(disk) then Some("sha256:" + h.hash(Stream(Files(disk)))) else None
  }

  // ---- The staging directory over a run ----------------------------------------------

  function StateEntry(h: Host, state: StagingState): Node {
    File(h.encodeState(state))
  }

  function Opened(h: Host, uri: string): Disk {
    map[STATE_FILE := StateEntry(h, StagingState(uri, DOWNLOADING, []))]
  }

  /** Staging once Pull has returned. */
  function Pulled(h: Host, run: Run): Disk {
    Opened(h, run.uri) + run.payload
  }

  function Sha256Hex(h: Host, text: string): string {
    "sha256:" + h.hash(text)
  }

  function Provenance(h: Host, run: Run): Option<Record> {
    var scheme := SchemeOf(run.uri);
    if !run.verifierConfigured || scheme.None? then None
    else if !IsOci(run.uri) then
      Some(Record(run.uri, scheme.value, false, false, false, "", "", "", "", false, ""))
    else match run.cosign
      case CosignFails => None
      case CosignOutput(manifest, provenance, sbom) =>
        Some(Record(run.uri, scheme.value, true, true, true,
                    if manifest != "" then manifest else Sha256Hex(h, provenance),
                    run.uri + "#attestation:slsaprovenance1", Sha256Hex(h, sbom), "", false, ""))
  }

  /** assessProvenance: the record of a run, carrying the digest of what was staged. */
  ghost function Assess(h: Host, run: Run): Option<Record> {
    match Provenance(h, run)
    case None => None
    case Some(r) =>
      match Digest(h, Pulled(h, run))
      case None => None
      case Some(d) => Some(r.(contentDigest := d, contentIntegrityVerified := true))
  }

  /** The record directory after MkdirAll, or its failure on a non-directory. */
  function RecordDir(stage: Disk): Option<Disk> {
    if RECORD_DIR !in stage then Some(map[])
    else match stage[RECORD_DIR] case Dir(c) => Some(c) case _ => None
  }

  /** WriteFile can write the record: into a regular or new file, at its path or where a link there leads. */
  predicate RecordWritable(stage: Disk) {
    RecordDir(stage).Some? &&
    match RecordLink(stage)
    case Some(target) => target in stage ==> stage[target].File?
    case None => RECORD_FILE in RecordDir(stage).value ==> RecordDir(stage).value[RECORD_FILE].File?
  }

  function PutRecord(stage: Disk, content: string): Disk {
    if !RecordWritable(stage) then stage
    else match RecordLink(stage)
      case Some(target) => stage[target := File(content)]
      case None => stage[RECORD_DIR := Dir(RecordDir(stage).value[RECORD_FILE := File(content)])]
  }

  function WithRecord(h: Host, stage: Disk, r: Record): Option<Disk> {
    if RecordWritable(stage) then Some(PutRecord(stage, h.encodeRecord(r))) else None
  }

  /** What commitStagingDirectory starts from, when the run gets that far. */
  ghost function Ready(h: Host, run: Run): Option<Disk> {
    if !run.pullSucceeds then None
    else if run.skipChecksum then Some(Pulled(h, run))
    else match Assess(h, run)
      case None => None
      case Some(r) => WithRecord(h, Pulled(h, run), r)
  }

  /** The entries a run publishes, when it reaches its renames. */
  ghost function Published(h: Host, run: Run): Option<Disk> {
    match Ready(h, run)
    case None => None
    case Some(stage) =>
      if STATE_FILE in stage && stage[STATE_FILE].File? then Some(stage - {STATE_FILE}) else None
  }

  ghost function CommitState(h: Host, run: Run): Node
    requires Published(h, run).Some?
  {
    StateEntry(h, StagingState(run.uri, COMMITTING, Sorted(Published(h, run).value.Keys)))
  }

  // ---- Filesystem effects ------------------------------------------------------------

  datatype Op =
    | Remove(name: string)
    | MakeStaging
    | TruncateState
    | WriteState(content: string)
    | Fill(contents: Disk)
    | MakeRecordDir
    | TruncateRecord
    | WriteRecord(content: string)
    | Rename(name: string)

  predicate HasStaging(disk: Disk) {
    STAGING_DIR in disk && disk[STAGING_DIR].Dir?
  }

  function Staging(disk: Disk): Disk
    requires HasStaging(disk)
  {
    disk[STAGING_DIR].children
  }

  function InStaging(stage: Disk, op: Op): Disk {
    match op
    case TruncateState => stage[STATE_FILE := File("")]
    case WriteState(content) => stage[STATE_FILE := File(content)]
    case Fill(contents) => contents
    case MakeRecordDir => (match RecordDir(stage) case None => stage case Some(c) => stage[RECORD_DIR := Dir(c)])
    case TruncateRecord => PutRecord(stage, "")
    case WriteRecord(content) => PutRecord(stage, content)
    case _ => stage
  }

  function Apply(disk: Disk, op: Op): Disk {
    match op
    case Remove(name) => disk - {name}
    case MakeStaging => disk[STAGING_DIR := Dir(map[])]
    case Rename(name) =>
      if HasStaging(disk) && name in Staging(disk) then
        disk[name := Staging(disk)[name]][STAGING_DIR := Dir(Staging(disk) - {name})]
      else disk
    case _ => if HasStaging(disk) then disk[STAGING_DIR := Dir(InStaging(Staging(disk), op))] else disk
  }

  function ApplyAll(disk: Disk, ops: seq<Op>): Disk
    decreases |ops|
  {
    if ops == [] then disk else ApplyAll(Apply(disk, ops[0]), ops[1..])
  }

  // ---- The effects of a run ------------------------------------------------------------

  ghost function RenameOps(names: seq<string>): seq<Op> {
    if names == [] || names[0] == STAGING_DIR then [] else [Rename(names[0])] + RenameOps(names[1..])
  }

  ghost function CommitOps(h: Host, uri: string, stage: Disk): seq<Op> {
    if STATE_FILE !in stage || !stage[STATE_FILE].File? then []
    else
      var names := Sorted((stage - {STATE_FILE}).Keys);
      [TruncateState, WriteState(h.encodeState(StagingState(uri, COMMITTING, names)))] + RenameOps(names)
  }

  function OpenOps(h: Host, run: Run): seq<Op> {
    [MakeStaging, TruncateState, WriteState(h.encodeState(StagingState(run.uri, DOWNLOADING, []))),
     Fill(Opened(h, run.uri) + run.partial), Fill(Pulled(h, run))]
  }

  ghost function RecordOps(h: Host, run: Run): seq<Op> {
    if !run.pullSucceeds || run.skipChecksum then []
    else match Assess(h, run)
      case None => []
      case Some(r) =>
        if RecordDir(Pulled(h, run)).None? then []
        else if WithRecord(h, Pulled(h, run), r).None? then [MakeRecordDir]
        else [MakeRecordDir, TruncateRecord, WriteRecord(h.encodeRecord(r))]
  }

  ghost function PublishOps(h: Host, run: Run): seq<Op> {
    match Ready(h, run) case None => [] case Some(stage) => CommitOps(h, run.uri, stage)
  }

  /** Everything after a successful prepare check, ending in the deferred cleanup. */
  ghost function SessionOps(h: Host, run: Run): seq<Op> {
    OpenOps(h, run) + RecordOps(h, run) + PublishOps(h, run) + [Remove(STAGING_DIR)]
  }

  datatype Recovery = Recovery(ops: seq<Op>, ok: bool)

  /** The loop of recoverStagingTransaction over the listed entries. */
  ghost function ScanEntries(names: seq<string>, state: StagingState): Recovery {
    if names == [] then Recovery([Remove(STAGING_DIR)], true)
    else if names[0] == STAGING_DIR then ScanEntries(names[1..], state)
    else if state.phase != COMMITTING || names[0] !in state.files then Recovery([], false)
    else
      var rest := ScanEntries(names[1..], state);
      Recovery([Remove(names[0])] + rest.ops, rest.ok)
  }

  function LoadState(h: Host, stage: Disk): Option<StagingState> {
    if STATE_FILE in stage && stage[STATE_FILE].File? then h.parseState(stage[STATE_FILE].content) else None
  }

  /** Staging carries a readable state of this subject in a known phase. */
  ghost predicate ClaimedStage(h: Host, uri: string, stage: Disk) {
    && LoadState(h, stage).Some? && LoadState(h, stage).value.subject == uri
    && (LoadState(h, stage).value.phase == DOWNLOADING || LoadState(h, stage).value.phase == COMMITTING)
  }

  ghost function Recover(h: Host, uri: string, disk: Disk): Recovery {
    if !HasStaging(disk) then Recovery([], true)
    else match LoadState(h, Staging(disk))
      case None => Recovery([], false)
      case Some(state) =>
        if state.subject != uri || (state.phase != DOWNLOADING && state.phase != COMMITTING) then Recovery([], false)
        else ScanEntries(Sorted(disk.Keys), state)
  }

  /** prepareStagingDirectory gets past both of its emptiness checks. */
  ghost predicate Prepares(h: Host, uri: string, disk: Disk) {
    Recover(h, uri, disk).ok && ApplyAll(disk, Recover(h, uri, disk).ops) == map[]
  }

  /** ReadFile on the record path follows a link there. */
  function RecordText(disk: Disk): Option<string> {
    if RECORD_DIR in disk && disk[RECORD_DIR].Dir? && RECORD_FILE in disk[RECORD_DIR].children then
      match disk[RECORD_DIR].children[RECORD_FILE]
      case File(content) => Some(content)
      case Symlink(target) => if target in disk && disk[target].File? then Some(disk[target].content) else None
      case _ => None
    else None
  }

  function LoadRecord(h: Host, disk: Disk): Option<Record> {
    match RecordText(disk) case None => None case Some(text) => h.parseRecord(text)
  }

  datatype Cache = Miss | SkipHit | VerifiedHit(record: Record) | DigestHit(record: Record)

  ghost function CheckCache(h: Host, run: Run, disk: Disk): Cache {
    if disk == map[] then Miss
    else if run.skipChecksum then SkipHit
    else match LoadRecord(h, disk)
      case None => Miss
      case Some(r) =>
        if r.subject != run.uri then Miss
        else if r.Verified() then VerifiedHit(r)
        else if r.contentIntegrityVerified && Digest(h, disk) == Some(r.contentDigest) then DigestHit(r)
        else Miss
  }

  /** The run reaches prepareStagingDirectory. */
  ghost predicate Misses(h: Host, run: Run, disk: Disk) {
    SchemeOf(run.uri).Some? && run.clientFound && CheckCache(h, run, disk) == Miss
  }

  ghost function RunOps(h: Host, run: Run, disk: Disk): seq<Op> {
    if !Misses(h, run, disk) then []
    else Recover(h, run.uri, disk).ops + if Prepares(h, run.uri, disk) then SessionOps(h, run) else []
  }

  datatype Fault = NoFault | Crash(after: nat) | Error(at: nat)

  function Take(ops: seq<Op>, n: nat): seq<Op> {
    if n <= |ops| then ops[..n] else ops
  }

  /** The effects that happen under a fault; `start` is where MakeStaging stands in `ops`. */
  function Effects(ops: seq<Op>, start: nat, fault: Fault): seq<Op> {
    match fault
    case NoFault => ops
    case Crash(n) => Take(ops, n)
    case Error(n) =>
      if n >= |ops| then ops
      else if start < n < |ops| - 1 then ops[..n] + [Remove(STAGING_DIR)]
      else ops[..n]
  }

  ghost function After(h: Host, run: Run, fault: Fault, disk: Disk): Disk {
    ApplyAll(disk, Effects(RunOps(h, run, disk), |Recover(h, run.uri, disk).ops|, fault))
  }

  lemma {:induction false} ApplyAllConcat(disk: Disk, a: seq<Op>, b: seq<Op>)
    ensures ApplyAll(disk, a + b) == ApplyAll(ApplyAll(disk, a), b)
    decreases |a|
  {
    if a == [] {
      assert a + b == b;
    } else {
      assert (a + b)[1..] == a[1..] + b;
      ApplyAllConcat(Apply(disk, a[0]), a[1..], b);
    }
  }
}
