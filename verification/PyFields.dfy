/** The rich fields of a Python packet and the byte layout each of them has
    inside its vendor operand. */
module PyFields {
  import opened Wire
  import opened Operands

  datatype PyError =
    | HeaderError | VersionError | TruncatedError | ChecksumError | EncodeError
    | StructError | IndexError | ValueError | UnicodeError | SymbolError(fault: Fault)

  type Py<T> = Result<T, PyError>

  datatype Identity = Identity(idType: int, name: bytes, instanceId: int)
  datatype QoS = QoS(priorityClass: int, reliability: int, ordering: int, deliveryMode: int, maxRetries: int, retryDelayMs: int)
  datatype TraceEntry = TraceEntry(actorType: int, actorName: bytes, action: bytes, timestampMs: int, durationUs: int)
  datatype ChunkInfo = ChunkInfo(totalChunks: int, chunkIndex: int, originalSize: int, chunkOffset: int, chunkSize: int)
  datatype BlobRef = BlobRef(refType: int, size: int, offset: int, identifier: bytes)
  datatype Backpressure = Backpressure(queueDepth: int, maxQueue: int, dropReason: int, retryAfterMs: int)
  datatype ErrorInfo = ErrorInfo(errorCode: int, severity: int, message: bytes, details: Option<bytes>)
  datatype AckInfo = AckInfo(ackType: bytes, message: bytes)
  datatype ModelInvocation = ModelInvocation(modelName: bytes, task: bytes, parametersJson: bytes, timeoutMs: int)
  datatype ToolInvocation = ToolInvocation(toolName: bytes, parametersJson: bytes, timeoutMs: int)
  datatype Meta = Meta(key: bytes, value: bytes)

  // --- reading parts of a field ---

  /** `s[i:j]`, which Python clamps to the string. */
  function Slice(s: bytes, i: nat, j: nat): bytes {
    if i >= |s| || j <= i then [] else if j >= |s| then s[i..] else s[i..j]
  }

  function U8At(s: bytes, i: nat): Py<int> {
    if i < |s| then Ok(s[i]) else Err(IndexError)
  }

  /** `struct.unpack_from` of an unsigned big-endian number. */
  function UIntAt(s: bytes, i: nat, w: nat): Py<int> {
    if i + w <= |s| then Ok(FromBE(s[i..i + w])) else Err(StructError)
  }

  function SIntAt(s: bytes, i: nat, w: nat): Py<int> {
    if i + w <= |s| then Ok(FromTwos(w, FromBE(s[i..i + w]))) else Err(StructError)
  }

  /** `.decode()`. */
  function Text(s: bytes): Py<bytes> {
    if ValidUtf8(s) then Ok(s) else Err(UnicodeError)
  }

  /** `struct.pack` of a signed big-endian number. */
  function PackSigned(w: nat, n: int): bytes {
    if FitsSigned(w, n) then ToBE(w, ToTwos(w, n)) else []
  }

  lemma {:induction false} UIntBack(a: bytes, w: nat, n: int, b: bytes)
    requires InRange(w, n)
    ensures UIntAt(a + Pack(w, n) + b, |a|, w) == Ok(n)
  {
  }

  lemma {:induction false} SliceBack(a: bytes, x: bytes, b: bytes)
    ensures Slice(a + x + b, |a|, |a| + |x|) == x
  {
  }

  // --- comma-joined names ---

  const COMMA: byte := 0x2C

  /** `b",".join(names)`. */
  function Join(names: seq<bytes>): bytes {
    if names == [] then [] else if |names| == 1 then names[0] else names[0] + [COMMA] + Join(names[1..])
  }

  /** The non-empty pieces of `v.split(b",")`, with the piece read so far. */
  function SplitFrom(piece: bytes, v: bytes): seq<bytes>
    decreases |v|
  {
    if v == [] then Keep(piece)
    else if v[0] == COMMA then Keep(piece) + SplitFrom([], v[1..])
    else SplitFrom(piece + [v[0]], v[1..])
  }

  function Keep(piece: bytes): seq<bytes> { if piece == [] then [] else [piece] }

  function Split(v: bytes): seq<bytes> { SplitFrom([], v) }

  predicate Joinable(name: bytes) { name != [] && COMMA !in name }

  lemma {:induction false} SplitName(piece: bytes, name: bytes, rest: bytes)
    requires COMMA !in name
    ensures SplitFrom(piece, name + rest) == SplitFrom(piece + name, rest)
    decreases |name|
  {
    if name == [] {
      assert name + rest == rest && piece + name == piece;
    } else {
      assert name[0] in name;
      assert (name + rest)[1..] == name[1..] + rest;
      SplitName(piece + [name[0]], name[1..], rest);
      assert piece + [name[0]] + name[1..] == piece + name;
    }
  }

  lemma {:induction false} SplitJoin(names: seq<bytes>)
    requires forall i :: 0 <= i < |names| ==> Joinable(names[i])
    ensures Split(Join(names)) == names
  {
    if names != [] {
      var n, t := names[0], names[1..];
      assert Joinable(n);
      assert [] + n == n;
      if t == [] {
        assert n + [] == n;
        SplitName([], n, []);
      } else {
        assert Join(names) == n + ([COMMA] + Join(t));
        SplitName([], n, [COMMA] + Join(t));
        assert ([COMMA] + Join(t))[1..] == Join(t);
        SplitJoin(t);
        assert names == [n] + t;
      }
    }
  }

  lemma {:induction false} SplitPieces(piece: bytes, v: bytes)
    requires COMMA !in piece
    ensures forall i :: 0 <= i < |SplitFrom(piece, v)| ==> Joinable(SplitFrom(piece, v)[i])
    decreases |v|
  {
    if v != [] {
      if v[0] == COMMA { SplitPieces([], v[1..]); } else { SplitPieces(piece + [v[0]], v[1..]); }
    }
  }

  /** A list of names survives exactly when none is empty or holds a comma. */
  lemma {:induction false} NamesSurviveExactly(names: seq<bytes>)
    ensures Split(Join(names)) == names <==> forall i :: 0 <= i < |names| ==> Joinable(names[i])
  {
    SplitPieces([], Join(names));
    if forall i :: 0 <= i < |names| ==> Joinable(names[i]) {
      SplitJoin(names);
    }
  }

  lemma {:induction false} SplitUtf8(names: seq<bytes>)
    requires forall i :: 0 <= i < |names| ==> Joinable(names[i]) && ValidUtf8(names[i])
    ensures forall i :: 0 <= i < |Split(Join(names))| ==> ValidUtf8(Split(Join(names))[i])
  {
    SplitJoin(names);
  }

  /** `[t.decode() for t in v.split(b",") if t]`. */
  function NamesOf(v: bytes): Py<seq<bytes>> {
    if forall i :: 0 <= i < |Split(v)| ==> ValidUtf8(Split(v)[i]) then Ok(Split(v)) else Err(UnicodeError)
  }

  // --- one layout per field, and its inverse ---

  predicate IdentityFits(x: Identity) {
    InRange(1, x.idType) && InRange(1, |x.name|) && ValidUtf8(x.name) && InRange(4, x.instanceId)
  }

  function PackIdentity(x: Identity): bytes {
    Pack(1, x.idType) + Pack(1, |x.name|) + x.name + Pack(4, x.instanceId)
  }

  function UnpackIdentity(v: bytes): Py<Identity> {
    if |v| < 2 then Err(ValueError)
    else
      var nl: int := v[1];
      if |v| < 2 + nl + 4 then Err(ValueError)
      else
        var name :- Text(v[2..2 + nl]);
        var id :- UIntAt(v, 2 + nl, 4);
        Ok(Identity(v[0], name, id))
  }

  lemma {:induction false} OneByte(n: int)
    requires InRange(1, n)
    ensures Pack(1, n) == [n]
  {
  }

  lemma {:induction false} IdentityBack(x: Identity)
    requires IdentityFits(x)
    ensures UnpackIdentity(PackIdentity(x)) == Ok(x)
  {
    var v := PackIdentity(x);
    OneByte(x.idType);
    OneByte(|x.name|);
    assert v[2..2 + |x.name|] == x.name;
    var a := Pack(1, x.idType) + Pack(1, |x.name|) + x.name;
    UIntBack(a, 4, x.instanceId, []);
    assert a + Pack(4, x.instanceId) + [] == v;
  }

  predicate QoSFits(x: QoS) {
    && InRange(1, x.priorityClass) && InRange(1, x.reliability) && InRange(1, x.ordering) && InRange(1, x.deliveryMode)
    && InRange(4, x.maxRetries) && InRange(4, x.retryDelayMs)
  }

  function PackQoS(x: QoS): bytes {
    Pack(1, x.priorityClass) + Pack(1, x.reliability) + Pack(1, x.ordering) + Pack(1, x.deliveryMode)
    + Pack(4, x.maxRetries) + Pack(4, x.retryDelayMs)
  }

  function UnpackQoS(v: bytes): Py<Option<QoS>> {
    if |v| < 12 then Ok(None)
    else Ok(Some(QoS(v[0], v[1], v[2], v[3], FromBE(v[4..8]), FromBE(v[8..12]))))
  }

  lemma {:induction false} QoSBack(x: QoS)
    requires QoSFits(x)
    ensures UnpackQoS(PackQoS(x)) == Ok(Some(x))
  {
    var v := PackQoS(x);
    OneByte(x.priorityClass);
    OneByte(x.reliability);
    OneByte(x.ordering);
    OneByte(x.deliveryMode);
    assert v[4..8] == Pack(4, x.maxRetries) && v[8..12] == Pack(4, x.retryDelayMs);
  }

  predicate TraceFits(x: TraceEntry) {
    && InRange(1, x.actorType) && InRange(1, |x.actorName|) && InRange(1, |x.action|)
    && ValidUtf8(x.actorName) && ValidUtf8(x.action)
    && FitsSigned(8, x.timestampMs) && FitsSigned(4, x.durationUs)
  }

  function PackTrace(x: TraceEntry): bytes {
    Pack(1, x.actorType) + Pack(1, |x.actorName|) + Pack(1, |x.action|) + x.actorName + x.action
    + PackSigned(8, x.timestampMs) + PackSigned(4, x.durationUs)
  }

  function UnpackTrace(d: bytes): Py<TraceEntry> {
    var actorType :- U8At(d, 0);
    var nl :- U8At(d, 1);
    var al :- U8At(d, 2);
    TraceFields(d, actorType, nl, al)
  }

  /** What follows the two lengths. */
  function TraceFields(d: bytes, actorType: int, nl: nat, al: nat): Py<TraceEntry> {
    var name :- Text(Slice(d, 3, 3 + nl));
    var action :- Text(Slice(d, 3 + nl, 3 + nl + al));
    var ts :- SIntAt(d, 3 + nl + al, 8);
    var dur :- SIntAt(d, 3 + nl + al + 8, 4);
    Ok(TraceEntry(actorType, name, action, ts, dur))
  }

  lemma {:induction false} TracePacked(h: bytes, name: bytes, action: bytes, ts: bytes, dur: bytes)
    requires |h| == 3
    ensures var d := h + name + action + ts + dur; var a, b, c := 3 + |name|, 3 + |name| + |action|, 3 + |name| + |action| + |ts|;
      && d[..3] == h && Slice(d, 3, a) == name && Slice(d, a, b) == action
      && d[b..c] == ts && d[c..c + |dur|] == dur
  {
  }

  lemma {:induction false} TraceUnpacks(d: bytes, x: TraceEntry, m: nat, k: nat)
    requires Text(Slice(d, 3, 3 + m)) == Ok(x.actorName) && Text(Slice(d, 3 + m, 3 + m + k)) == Ok(x.action)
    requires SIntAt(d, 3 + m + k, 8) == Ok(x.timestampMs) && SIntAt(d, 3 + m + k + 8, 4) == Ok(x.durationUs)
    ensures TraceFields(d, x.actorType, m, k) == Ok(x)
  {
  }

  lemma {:induction false} TraceRead(d: bytes, x: TraceEntry)
    requires TraceFits(x) && |d| >= 3 && d[0] == x.actorType && d[1] == |x.actorName| && d[2] == |x.action|
    requires var a, b := 3 + |x.actorName|, 3 + |x.actorName| + |x.action|;
      && Slice(d, 3, a) == x.actorName && Slice(d, a, b) == x.action
      && SIntAt(d, b, 8) == Ok(x.timestampMs) && SIntAt(d, b + 8, 4) == Ok(x.durationUs)
    ensures UnpackTrace(d) == Ok(x)
  {
    TraceUnpacks(d, x, |x.actorName|, |x.action|);
  }

  lemma {:induction false} SIntRead(d: bytes, i: nat, w: nat, n: int)
    requires FitsSigned(w, n) && i + w <= |d| && d[i..i + w] == PackSigned(w, n)
    ensures SIntAt(d, i, w) == Ok(n)
  {
    FromToBE(w, ToTwos(w, n));
  }

  lemma {:induction false} TraceBack(x: TraceEntry)
    requires TraceFits(x)
    ensures UnpackTrace(PackTrace(x)) == Ok(x)
  {
    OneByte(x.actorType);
    OneByte(|x.actorName|);
    OneByte(|x.action|);
    var h, d := Pack(1, x.actorType) + Pack(1, |x.actorName|) + Pack(1, |x.action|), PackTrace(x);
    var ts, dur, b := PackSigned(8, x.timestampMs), PackSigned(4, x.durationUs), 3 + |x.actorName| + |x.action|;
    TracePacked(h, x.actorName, x.action, ts, dur);
    assert d[0] == d[..3][0] == x.actorType && d[1] == d[..3][1] == |x.actorName| && d[2] == d[..3][2] == |x.action|;
    SIntRead(d, b, 8, x.timestampMs);
    SIntRead(d, b + 8, 4, x.durationUs);
    TraceRead(d, x);
  }

  predicate ChunkFits(x: ChunkInfo) {
    && InRange(1, x.totalChunks) && InRange(1, x.chunkIndex) && InRange(4, x.originalSize)
    && InRange(4, x.chunkOffset) && InRange(4, x.chunkSize)
  }

  function PackChunk(x: ChunkInfo): bytes {
    Pack(1, x.totalChunks) + Pack(1, x.chunkIndex) + Pack(4, x.originalSize) + Pack(4, x.chunkOffset) + Pack(4, x.chunkSize)
  }

  function UnpackChunk(v: bytes): Py<Option<ChunkInfo>> {
    if |v| < 14 then Ok(None)
    else Ok(Some(ChunkInfo(v[0], v[1], FromBE(v[2..6]), FromBE(v[6..10]), FromBE(v[10..14]))))
  }

  lemma {:induction false} ChunkBack(x: ChunkInfo)
    requires ChunkFits(x)
    ensures UnpackChunk(PackChunk(x)) == Ok(Some(x))
  {
    var v := PackChunk(x);
    OneByte(x.totalChunks);
    OneByte(x.chunkIndex);
    assert v[2..6] == Pack(4, x.originalSize) && v[6..10] == Pack(4, x.chunkOffset) && v[10..14] == Pack(4, x.chunkSize);
  }

  predicate BackpressureFits(x: Backpressure) {
    InRange(4, x.queueDepth) && InRange(4, x.maxQueue) && InRange(2, x.dropReason) && InRange(2, x.retryAfterMs)
  }

  function PackBackpressure(x: Backpressure): bytes {
    Pack(4, x.queueDepth) + Pack(4, x.maxQueue) + Pack(2, x.dropReason) + Pack(2, x.retryAfterMs)
  }

  function UnpackBackpressure(v: bytes): Py<Option<Backpressure>> {
    if |v| < 12 then Ok(None)
    else Ok(Some(Backpressure(FromBE(v[0..4]), FromBE(v[4..8]), FromBE(v[8..10]), FromBE(v[10..12]))))
  }

  lemma {:induction false} BackpressureBack(x: Backpressure)
    requires BackpressureFits(x)
    ensures UnpackBackpressure(PackBackpressure(x)) == Ok(Some(x))
  {
    var v := PackBackpressure(x);
    assert v[0..4] == Pack(4, x.queueDepth) && v[4..8] == Pack(4, x.maxQueue);
    assert v[8..10] == Pack(2, x.dropReason) && v[10..12] == Pack(2, x.retryAfterMs);
  }

  /** `x or ""`: an empty optional string is no string. */
  function Truthy(x: Option<bytes>): Option<bytes> { if x == Some([]) then None else x }

  function OrEmpty(x: Option<bytes>): bytes { if x.Some? then x.value else [] }

  predicate ErrorFits(x: ErrorInfo) {
    && InRange(2, x.errorCode) && InRange(2, x.severity) && InRange(1, |x.message|) && ValidUtf8(x.message)
    && InRange(2, |OrEmpty(x.details)|) && ValidUtf8(OrEmpty(x.details))
  }

  function PackError(x: ErrorInfo): bytes {
    Pack(2, x.errorCode) + Pack(2, x.severity) + Pack(1, |x.message|) + x.message
    + Pack(2, |OrEmpty(x.details)|) + OrEmpty(x.details)
  }

  function UnpackError(v: bytes): Py<Option<ErrorInfo>> {
    if |v| < 7 then Ok(None)
    else
      var ml: int := v[4];
      if 5 + ml > |v| then Ok(None)
      else
        var msg :- Text(v[5..5 + ml]);
        var dl := if 5 + ml + 2 <= |v| then FromBE(v[5 + ml..5 + ml + 2]) else 0;
        var det :- Text(Slice(v, 5 + ml + 2, 5 + ml + 2 + dl));
        Ok(Some(ErrorInfo(FromBE(v[0..2]), FromBE(v[2..4]), msg, if dl > 0 then Some(det) else None)))
  }

  lemma {:induction false} ErrorBack(x: ErrorInfo)
    requires ErrorFits(x)
    ensures UnpackError(PackError(x)) == Ok(Some(x.(details := Truthy(x.details))))
  {
    var v, det := PackError(x), OrEmpty(x.details);
    var ml := |x.message|;
    OneByte(ml);
    assert v[0..2] == Pack(2, x.errorCode) && v[2..4] == Pack(2, x.severity) && v[4] == ml;
    assert v[5..5 + ml] == x.message;
    assert v[5 + ml..5 + ml + 2] == Pack(2, |det|);
    var a := Pack(2, x.errorCode) + Pack(2, x.severity) + Pack(1, ml) + x.message + Pack(2, |det|);
    SliceBack(a, det, []);
    assert a + det + [] == v;
  }

  predicate ModelFits(x: ModelInvocation) {
    && InRange(1, |x.modelName|) && InRange(1, |x.task|) && InRange(1, |x.parametersJson|)
    && ValidUtf8(x.modelName) && ValidUtf8(x.task) && ValidUtf8(x.parametersJson) && InRange(4, x.timeoutMs)
  }

  function PackModel(x: ModelInvocation): bytes {
    Pack(1, |x.modelName|) + Pack(1, |x.task|) + Pack(1, |x.parametersJson|)
    + x.modelName + x.task + x.parametersJson + Pack(4, x.timeoutMs)
  }

  function UnpackModel(v: bytes): Py<Option<ModelInvocation>> {
    if |v| < 3 then Ok(None)
    else
      var nl: int, tl: int, pl: int := v[0], v[1], v[2];
      var name :- Text(Slice(v, 3, 3 + nl));
      var task :- Text(Slice(v, 3 + nl, 3 + nl + tl));
      var json :- Text(Slice(v, 3 + nl + tl, 3 + nl + tl + pl));
      var off := 3 + nl + tl + pl;
      Ok(Some(ModelInvocation(name, task, json, if off + 4 <= |v| then FromBE(v[off..off + 4]) else 0)))
  }

  predicate ModelAt(v: bytes, x: ModelInvocation) {
    && |v| >= 3
    && var nl: int, tl: int, pl: int := v[0], v[1], v[2];
    && |v| == 3 + nl + tl + pl + 4
    && Slice(v, 3, 3 + nl) == x.modelName
    && Slice(v, 3 + nl, 3 + nl + tl) == x.task
    && Slice(v, 3 + nl + tl, 3 + nl + tl + pl) == x.parametersJson
    && v[3 + nl + tl + pl..] == Pack(4, x.timeoutMs)
  }

  lemma {:induction false} ModelPacked(h: bytes, name: bytes, task: bytes, json: bytes, t: bytes)
    requires |h| == 3
    ensures var v := h + name + task + json + t; var a, b, c := 3 + |name|, 3 + |name| + |task|, 3 + |name| + |task| + |json|;
      && v[..3] == h && Slice(v, 3, a) == name && Slice(v, a, b) == task && Slice(v, b, c) == json && v[c..] == t
  {
  }

  lemma {:induction false} ModelRead(v: bytes, x: ModelInvocation)
    requires ModelFits(x) && ModelAt(v, x)
    ensures UnpackModel(v) == Ok(Some(x))
  {
    var off := |v| - 4;
    assert v[off..off + 4] == v[off..];
  }

  lemma {:induction false} ModelBack(x: ModelInvocation)
    requires ModelFits(x)
    ensures UnpackModel(PackModel(x)) == Ok(Some(x))
  {
    OneByte(|x.modelName|);
    OneByte(|x.task|);
    OneByte(|x.parametersJson|);
    var h := Pack(1, |x.modelName|) + Pack(1, |x.task|) + Pack(1, |x.parametersJson|);
    ModelPacked(h, x.modelName, x.task, x.parametersJson, Pack(4, x.timeoutMs));
    var v := PackModel(x);
    assert v[0] == v[..3][0] == |x.modelName| && v[1] == v[..3][1] == |x.task| && v[2] == v[..3][2] == |x.parametersJson|;
    ModelRead(v, x);
  }

  predicate ToolFits(x: ToolInvocation) {
    && InRange(1, |x.toolName|) && InRange(1, |x.parametersJson|)
    && ValidUtf8(x.toolName) && ValidUtf8(x.parametersJson) && InRange(4, x.timeoutMs)
  }

  function PackTool(x: ToolInvocation): bytes {
    Pack(1, |x.toolName|) + Pack(1, |x.parametersJson|) + x.toolName + x.parametersJson + Pack(4, x.timeoutMs)
  }

  function UnpackTool(v: bytes): Py<Option<ToolInvocation>> {
    if |v| < 2 then Ok(None)
    else
      var nl: int, pl: int := v[0], v[1];
      var name :- Text(Slice(v, 2, 2 + nl));
      var json :- Text(Slice(v, 2 + nl, 2 + nl + pl));
      var off := 2 + nl + pl;
      Ok(Some(ToolInvocation(name, json, if off + 4 <= |v| then FromBE(v[off..off + 4]) else 0)))
  }

  lemma {:induction false} ToolPacked(h: bytes, name: bytes, json: bytes, t: bytes)
    requires |h| == 2
    ensures var v := h + name + json + t; var a, b := 2 + |name|, 2 + |name| + |json|;
      v[..2] == h && Slice(v, 2, a) == name && Slice(v, a, b) == json && v[b..] == t
  {
  }

  lemma {:induction false} ToolRead(v: bytes, x: ToolInvocation)
    requires ToolFits(x) && |v| >= 2 && v[0] == |x.toolName| && v[1] == |x.parametersJson|
    requires var a, b := 2 + |x.toolName|, 2 + |x.toolName| + |x.parametersJson|;
      && Slice(v, 2, a) == x.toolName && Slice(v, a, b) == x.parametersJson
      && |v| == b + 4 && v[b..] == Pack(4, x.timeoutMs)
    ensures UnpackTool(v) == Ok(Some(x))
  {
    var b := |v| - 4;
    assert v[b..b + 4] == v[b..];
  }

  lemma {:induction false} ToolBack(x: ToolInvocation)
    requires ToolFits(x)
    ensures UnpackTool(PackTool(x)) == Ok(Some(x))
  {
    OneByte(|x.toolName|);
    OneByte(|x.parametersJson|);
    var h, v := Pack(1, |x.toolName|) + Pack(1, |x.parametersJson|), PackTool(x);
    ToolPacked(h, x.toolName, x.parametersJson, Pack(4, x.timeoutMs));
    assert v[0] == v[..2][0] == |x.toolName| && v[1] == v[..2][1] == |x.parametersJson|;
    ToolRead(v, x);
  }

  // --- metadata ---

  predicate MetaFits(m: Meta) {
    InRange(1, |m.key|) && InRange(2, |m.value|) && ValidUtf8(m.key) && ValidUtf8(m.value)
  }

  function PackMeta(m: Meta): bytes { Pack(1, |m.key|) + m.key + Pack(2, |m.value|) + m.value }

  function PackMetadata(ms: seq<Meta>): bytes {
    if ms == [] then [] else PackMeta(ms[0]) + PackMetadata(ms[1..])
  }

  /** `result[k] = v` on a dict of strings. */
  function MetaPut(ms: seq<Meta>, m: Meta): seq<Meta> {
    if ms == [] then [m]
    else if ms[0].key == m.key then [m] + ms[1..]
    else [ms[0]] + MetaPut(ms[1..], m)
  }

  function UnpackMetadata(v: bytes, acc: seq<Meta>): Py<seq<Meta>>
    decreases |v|
  {
    if v == [] then Ok(acc)
    else
      var kl: int := v[0];
      if 1 + kl > |v| then Ok(acc)
      else
        var k :- Text(v[1..1 + kl]);
        var vl :- UIntAt(v, 1 + kl, 2);
        if 1 + kl + 2 + vl > |v| then Ok(acc)
        else
          var x :- Text(v[1 + kl + 2..1 + kl + 2 + vl]);
          UnpackMetadata(v[1 + kl + 2 + vl..], MetaPut(acc, Meta(k, x)))
  }

  predicate DistinctMeta(ms: seq<Meta>) {
    forall i, j :: 0 <= i < j < |ms| ==> ms[i].key != ms[j].key
  }

  lemma {:induction false} MetaPutAppends(acc: seq<Meta>, m: Meta)
    requires forall i :: 0 <= i < |acc| ==> acc[i].key != m.key
    ensures MetaPut(acc, m) == acc + [m]
  {
    if acc != [] {
      MetaPutAppends(acc[1..], m);
    }
  }

  lemma {:induction false} MetaHead(m: Meta, rest: bytes, acc: seq<Meta>)
    requires MetaFits(m)
    ensures UnpackMetadata(PackMeta(m) + rest, acc) == UnpackMetadata(rest, MetaPut(acc, m))
  {
    var kl, vl := |m.key|, |m.value|;
    var v := PackMeta(m) + rest;
    OneByte(kl);
    assert v[0] == kl;
    assert v[1..1 + kl] == m.key;
    assert v[1 + kl..1 + kl + 2] == Pack(2, vl);
    assert v[1 + kl + 2..1 + kl + 2 + vl] == m.value;
    assert v[1 + kl + 2 + vl..] == rest;
  }

  lemma {:induction false} MetaFirst(acc: seq<Meta>, ms: seq<Meta>)
    requires ms != [] && DistinctMeta(acc + ms)
    ensures MetaPut(acc, ms[0]) == acc + [ms[0]]
    ensures acc + ms == acc + [ms[0]] + ms[1..]
  {
    forall i | 0 <= i < |acc|
      ensures acc[i].key != ms[0].key
    {
      assert (acc + ms)[i].key != (acc + ms)[|acc|].key;
    }
    MetaPutAppends(acc, ms[0]);
  }

  lemma {:induction false} MetadataBack(ms: seq<Meta>, acc: seq<Meta>)
    requires DistinctMeta(acc + ms) && forall i :: 0 <= i < |ms| ==> MetaFits(ms[i])
    ensures UnpackMetadata(PackMetadata(ms), acc) == Ok(acc + ms)
    decreases |ms|
  {
    if ms == [] {
      assert acc + ms == acc;
    } else {
      var m, t := ms[0], ms[1..];
      MetaFirst(acc, ms);
      MetaHead(m, PackMetadata(t), acc);
      MetadataBack(t, acc + [m]);
    }
  }

  // --- two fields whose view differs ---

  /** `struct.pack("BBI", ...)` in native layout: two bytes, two of padding, and
      the size little-endian; then the offset big-endian and the identifier. */
  function PackBlobRef(x: BlobRef): bytes {
    var s := Pack(4, x.size);
    Pack(1, x.refType) + Pack(1, |x.identifier|) + [0, 0]
    + (if |s| == 4 then [s[3], s[2], s[1], s[0]] else []) + Pack(4, x.offset) + x.identifier
  }

  predicate BlobRefFits(x: BlobRef) {
    InRange(1, x.refType) && InRange(1, |x.identifier|) && ValidUtf8(x.identifier) && InRange(4, x.size) && InRange(4, x.offset)
  }

  function PackAck(x: AckInfo): bytes { [0] + x.message }
}
