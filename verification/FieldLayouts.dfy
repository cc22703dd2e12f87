/** The records of the rich fields in plain numbers: which values each of them can
    carry, what stands at which byte, and what the view makes of any bytes. */
module FieldLayouts {
  import opened Wire
  import opened PyFields

  // --- building blocks ---

  /** Packing what was read from w bytes gives the bytes back. */
  lemma {:induction false} PackRead(s: bytes)
    ensures InRange(|s|, FromBE(s)) && Pack(|s|, FromBE(s)) == s
  {
    ToFromBE(s);
  }

  lemma {:induction false} SignedRead(s: bytes)
    ensures var n := FromTwos(|s|, FromBE(s)); FitsSigned(|s|, n) && PackSigned(|s|, n) == s
  {
    ToFromBE(s);
  }

  /** A signed number: what it is short of 256^w if it is negative. */
  lemma {:induction false} SignedValue(w: nat, n: int)
    requires FitsSigned(w, n)
    ensures |PackSigned(w, n)| == w && FromBE(PackSigned(w, n)) == if n < 0 then n + Pow256(w) else n
  {
    FromToBE(w, ToTwos(w, n));
  }

  lemma {:induction false} PrefixSlice(p: bytes, v: bytes, i: nat, j: nat)
    requires p <= v && i <= j <= |p|
    ensures v[i..j] == p[i..j]
  {
  }

  // --- identity ---

  lemma {:induction false} IdentityLayout(x: Identity)
    ensures IdentityFits(x) <==>
            0 <= x.idType < 0x100 && |x.name| < 0x100 && ValidUtf8(x.name) && 0 <= x.instanceId < 0x1_0000_0000
    ensures IdentityFits(x) ==>
              var v, n := PackIdentity(x), |x.name|;
              && |v| == n + 6 && v[0] == x.idType && v[1] == n
              && v[2..n + 2] == x.name && FromBE(v[n + 2..n + 6]) == x.instanceId
  {
    Pow256Values();
    if IdentityFits(x) {
      var v, n := PackIdentity(x), |x.name|;
      OneByte(x.idType);
      OneByte(n);
      assert v[2..n + 2] == x.name && v[n + 2..n + 6] == Pack(4, x.instanceId);
    }
  }

  /** `origin` reads exactly what starts with a packed identity. */
  lemma {:induction false} IdentityRead(v: bytes, x: Identity)
    ensures UnpackIdentity(v) == Ok(x) <==> IdentityFits(x) && PackIdentity(x) <= v
    ensures UnpackIdentity(v) == Err(ValueError) <==> |v| < 2 || |v| < v[1] as int + 6
    ensures UnpackIdentity(v).Err? ==> UnpackIdentity(v).error in {ValueError, UnicodeError}
  {
    if IdentityFits(x) && PackIdentity(x) <= v { IdentityPrefix(v, x); }
    if UnpackIdentity(v) == Ok(x) { IdentityBytes(v, x); }
  }

  lemma {:induction false} IdentityPrefix(v: bytes, x: Identity)
    requires IdentityFits(x) && PackIdentity(x) <= v
    ensures UnpackIdentity(v) == Ok(x)
  {
    var n := |x.name|;
    IdentityLayout(x);
    PrefixSlice(PackIdentity(x), v, 2, n + 2);
    PrefixSlice(PackIdentity(x), v, n + 2, n + 6);
    IdentityAt(v, x, n);
  }

  lemma {:induction false} IdentityAt(v: bytes, x: Identity, n: nat)
    requires n == |x.name| && |v| >= n + 6 && v[0] == x.idType && v[1] == n && v[2..n + 2] == x.name
    requires ValidUtf8(x.name) && FromBE(v[n + 2..n + 6]) == x.instanceId
    ensures UnpackIdentity(v) == Ok(x)
  {
  }

  lemma {:induction false} IdentityBytes(v: bytes, x: Identity)
    requires UnpackIdentity(v) == Ok(x)
    ensures IdentityFits(x) && PackIdentity(x) == v[..|x.name| + 6]
  {
    var n := |x.name|;
    PackRead(v[0..1]);
    PackRead(v[n + 2..n + 6]);
    Pow256Values();
    OneByte(x.idType);
    OneByte(n);
    assert v[..n + 6] == [v[0]] + [v[1]] + v[2..n + 2] + v[n + 2..n + 6];
  }

  // --- quality of service ---

  lemma {:induction false} QoSLayout(x: QoS)
    ensures QoSFits(x) <==>
            && 0 <= x.priorityClass < 0x100 && 0 <= x.reliability < 0x100 && 0 <= x.ordering < 0x100
            && 0 <= x.deliveryMode < 0x100 && 0 <= x.maxRetries < 0x1_0000_0000 && 0 <= x.retryDelayMs < 0x1_0000_0000
    ensures QoSFits(x) ==>
              var v := PackQoS(x);
              && |v| == 12 && v[0] == x.priorityClass && v[1] == x.reliability && v[2] == x.ordering
              && v[3] == x.deliveryMode && FromBE(v[4..8]) == x.maxRetries && FromBE(v[8..12]) == x.retryDelayMs
  {
    Pow256Values();
    if QoSFits(x) {
      var v := PackQoS(x);
      OneByte(x.priorityClass);
      OneByte(x.reliability);
      OneByte(x.ordering);
      OneByte(x.deliveryMode);
      assert v[4..8] == Pack(4, x.maxRetries) && v[8..12] == Pack(4, x.retryDelayMs);
    }
  }

  /** `qos` reads exactly what starts with a packed record, and nothing shorter. */
  lemma {:induction false} QoSRead(v: bytes, x: QoS)
    ensures UnpackQoS(v) == Ok(Some(x)) <==> QoSFits(x) && PackQoS(x) <= v
    ensures UnpackQoS(v) == Ok(None) <==> |v| < 12
    ensures UnpackQoS(v).Ok?
  {
    if QoSFits(x) && PackQoS(x) <= v {
      QoSLayout(x);
      PrefixSlice(PackQoS(x), v, 4, 8);
      PrefixSlice(PackQoS(x), v, 8, 12);
    }
    if UnpackQoS(v) == Ok(Some(x)) { QoSBytes(v, x); }
  }

  lemma {:induction false} QoSBytes(v: bytes, x: QoS)
    requires UnpackQoS(v) == Ok(Some(x))
    ensures QoSFits(x) && PackQoS(x) == v[..12]
  {
    Pow256Values();
    PackRead(v[4..8]);
    PackRead(v[8..12]);
    OneByte(x.priorityClass);
    OneByte(x.reliability);
    OneByte(x.ordering);
    OneByte(x.deliveryMode);
    assert v[..12] == [v[0]] + [v[1]] + [v[2]] + [v[3]] + v[4..8] + v[8..12];
  }

  // --- trace entries ---

  lemma {:induction false} TraceRanges(x: TraceEntry)
    ensures TraceFits(x) <==>
            && 0 <= x.actorType < 0x100 && |x.actorName| < 0x100 && |x.action| < 0x100
            && ValidUtf8(x.actorName) && ValidUtf8(x.action)
            && -0x8000_0000_0000_0000 <= x.timestampMs < 0x8000_0000_0000_0000
            && -0x8000_0000 <= x.durationUs < 0x8000_0000
  {
    Pow256Values();
  }

  lemma {:induction false} TraceLayout(x: TraceEntry)
    requires TraceFits(x)
    ensures var v, m, n := PackTrace(x), |x.actorName|, |x.actorName| + |x.action|;
      && |v| == n + 15 && v[0] == x.actorType && v[1] == m && v[2] == |x.action|
      && v[3..m + 3] == x.actorName && v[m + 3..n + 3] == x.action
      && FromBE(v[n + 3..n + 11]) == (if x.timestampMs < 0 then x.timestampMs + 0x1_0000_0000_0000_0000 else x.timestampMs)
      && FromBE(v[n + 11..n + 15]) == (if x.durationUs < 0 then x.durationUs + 0x1_0000_0000 else x.durationUs)
  {
    Pow256Values();
    OneByte(x.actorType);
    OneByte(|x.actorName|);
    OneByte(|x.action|);
    SignedValue(8, x.timestampMs);
    SignedValue(4, x.durationUs);
    var h := [x.actorType] + [|x.actorName|] + [|x.action|];
    TraceParts(h, x.actorName, x.action, PackSigned(8, x.timestampMs), PackSigned(4, x.durationUs));
  }

  lemma {:induction false} TraceParts(h: bytes, name: bytes, action: bytes, ts: bytes, dur: bytes)
    requires |h| == 3 && |ts| == 8 && |dur| == 4
    ensures var v, m, n := h + name + action + ts + dur, |name|, |name| + |action|;
      && |v| == n + 15 && v[0] == h[0] && v[1] == h[1] && v[2] == h[2] && v[3..m + 3] == name && v[m + 3..n + 3] == action
      && v[n + 3..n + 11] == ts && v[n + 11..n + 15] == dur
  {
  }

  /** `trace` reads exactly what starts with a packed entry. */
  lemma {:induction false} TraceRead(v: bytes, x: TraceEntry)
    ensures UnpackTrace(v) == Ok(x) <==> TraceFits(x) && PackTrace(x) <= v
    ensures UnpackTrace(v) == Err(IndexError) <==> |v| < 3
  {
    if TraceFits(x) && PackTrace(x) <= v { TracePrefix(v, x); }
    if UnpackTrace(v) == Ok(x) { TraceBytes(v, x); }
  }

  lemma {:induction false} TracePrefix(v: bytes, x: TraceEntry)
    requires TraceFits(x) && PackTrace(x) <= v
    ensures UnpackTrace(v) == Ok(x)
  {
    var p, m, n := PackTrace(x), |x.actorName|, |x.actorName| + |x.action|;
    OneByte(x.actorType);
    OneByte(|x.actorName|);
    OneByte(|x.action|);
    var h, ts, dur := [x.actorType] + [|x.actorName|] + [|x.action|], PackSigned(8, x.timestampMs), PackSigned(4, x.durationUs);
    SignedValue(8, x.timestampMs);
    SignedValue(4, x.durationUs);
    TraceParts(h, x.actorName, x.action, ts, dur);
    PrefixSlice(p, v, 3, m + 3);
    PrefixSlice(p, v, m + 3, n + 3);
    PrefixSlice(p, v, n + 3, n + 11);
    PrefixSlice(p, v, n + 11, n + 15);
    SliceIs(v, 3, m + 3);
    SliceIs(v, m + 3, n + 3);
    SIntRead(v, n + 3, 8, x.timestampMs);
    SIntRead(v, n + 11, 4, x.durationUs);
    PyFields.TraceRead(v, x);
  }

  lemma {:induction false} SliceIs(v: bytes, i: nat, j: nat)
    requires i <= j <= |v|
    ensures Slice(v, i, j) == v[i..j]
  {
  }

  /** The fields of an entry that was read, and where they were read from. */
  predicate TraceFrom(v: bytes, x: TraceEntry, m: nat, k: nat) {
    && |v| >= m + k + 15 && v[0] == x.actorType && v[1] == m && v[2] == k
    && v[3..m + 3] == x.actorName && v[m + 3..m + k + 3] == x.action
    && ValidUtf8(x.actorName) && ValidUtf8(x.action)
    && x.timestampMs == FromTwos(8, FromBE(v[m + k + 3..m + k + 11]))
    && x.durationUs == FromTwos(4, FromBE(v[m + k + 11..m + k + 15]))
  }

  lemma {:induction false} TraceGot(v: bytes, x: TraceEntry) returns (m: nat, k: nat)
    requires UnpackTrace(v) == Ok(x)
    ensures TraceFrom(v, x, m, k)
  {
    m, k := v[1], v[2];
    TraceSteps(v, x, m, k);
    SliceIs(v, 3, m + 3);
    SliceIs(v, m + 3, m + k + 3);
  }

  lemma {:induction false} TraceSteps(v: bytes, x: TraceEntry, m: nat, k: nat)
    requires |v| >= 3 && v[1] == m && v[2] == k && UnpackTrace(v) == Ok(x)
    ensures |v| >= m + k + 15 && v[0] == x.actorType
    ensures Text(Slice(v, 3, m + 3)) == Ok(x.actorName) && Text(Slice(v, m + 3, m + k + 3)) == Ok(x.action)
    ensures SIntAt(v, m + k + 3, 8) == Ok(x.timestampMs) && SIntAt(v, m + k + 11, 4) == Ok(x.durationUs)
  {
    assert U8At(v, 1) == Ok(m) && U8At(v, 2) == Ok(k);
  }

  lemma {:induction false} TraceBytes(v: bytes, x: TraceEntry)
    requires UnpackTrace(v) == Ok(x)
    ensures TraceFits(x) && PackTrace(x) == v[..|x.actorName| + |x.action| + 15]
  {
    var m, k := TraceGot(v, x);
    TraceRebuilt(v, x, m, k);
  }

  lemma {:induction false} TraceRebuilt(v: bytes, x: TraceEntry, m: nat, k: nat)
    requires TraceFrom(v, x, m, k)
    ensures TraceFits(x) && PackTrace(x) == v[..m + k + 15]
  {
    Pow256Values();
    SignedRead(v[m + k + 3..m + k + 11]);
    SignedRead(v[m + k + 11..m + k + 15]);
    OneByte(x.actorType);
    OneByte(m);
    OneByte(k);
    TraceSplit(v, m, k);
  }

  lemma {:induction false} TraceSplit(v: bytes, m: nat, k: nat)
    requires |v| >= m + k + 15
    ensures v[..m + k + 15]
         == [v[0]] + [v[1]] + [v[2]] + v[3..m + 3] + v[m + 3..m + k + 3] + v[m + k + 3..m + k + 11] + v[m + k + 11..m + k + 15]
  {
  }

  // --- chunks ---

  lemma {:induction false} ChunkLayout(x: ChunkInfo)
    ensures ChunkFits(x) <==>
            && 0 <= x.totalChunks < 0x100 && 0 <= x.chunkIndex < 0x100 && 0 <= x.originalSize < 0x1_0000_0000
            && 0 <= x.chunkOffset < 0x1_0000_0000 && 0 <= x.chunkSize < 0x1_0000_0000
    ensures ChunkFits(x) ==>
              var v := PackChunk(x);
              && |v| == 14 && v[0] == x.totalChunks && v[1] == x.chunkIndex && FromBE(v[2..6]) == x.originalSize
              && FromBE(v[6..10]) == x.chunkOffset && FromBE(v[10..14]) == x.chunkSize
  {
    Pow256Values();
    if ChunkFits(x) {
      var v := PackChunk(x);
      OneByte(x.totalChunks);
      OneByte(x.chunkIndex);
      assert v[2..6] == Pack(4, x.originalSize) && v[6..10] == Pack(4, x.chunkOffset) && v[10..14] == Pack(4, x.chunkSize);
    }
  }

  /** `chunk_info` reads exactly what starts with a packed record. */
  lemma {:induction false} ChunkRead(v: bytes, x: ChunkInfo)
    ensures UnpackChunk(v) == Ok(Some(x)) <==> ChunkFits(x) && PackChunk(x) <= v
    ensures UnpackChunk(v) == Ok(None) <==> |v| < 14
    ensures UnpackChunk(v).Ok?
  {
    ChunkLayout(x);
    if ChunkFits(x) && PackChunk(x) <= v {
      PrefixSlice(PackChunk(x), v, 2, 6);
      PrefixSlice(PackChunk(x), v, 6, 10);
      PrefixSlice(PackChunk(x), v, 10, 14);
    }
    if UnpackChunk(v) == Ok(Some(x)) { ChunkBytes(v, x); }
  }

  lemma {:induction false} ChunkBytes(v: bytes, x: ChunkInfo)
    requires UnpackChunk(v) == Ok(Some(x))
    ensures ChunkFits(x) && PackChunk(x) == v[..14]
  {
    Pow256Values();
    PackRead(v[2..6]);
    PackRead(v[6..10]);
    PackRead(v[10..14]);
    OneByte(x.totalChunks);
    OneByte(x.chunkIndex);
    assert v[..14] == [v[0]] + [v[1]] + v[2..6] + v[6..10] + v[10..14];
  }

  // --- backpressure ---

  lemma {:induction false} BackpressureLayout(x: Backpressure)
    ensures BackpressureFits(x) <==>
            && 0 <= x.queueDepth < 0x1_0000_0000 && 0 <= x.maxQueue < 0x1_0000_0000
            && 0 <= x.dropReason < 0x1_0000 && 0 <= x.retryAfterMs < 0x1_0000
    ensures BackpressureFits(x) ==>
              var v := PackBackpressure(x);
              && |v| == 12 && FromBE(v[0..4]) == x.queueDepth && FromBE(v[4..8]) == x.maxQueue
              && FromBE(v[8..10]) == x.dropReason && FromBE(v[10..12]) == x.retryAfterMs
  {
    Pow256Values();
    if BackpressureFits(x) {
      var v := PackBackpressure(x);
      assert v[0..4] == Pack(4, x.queueDepth) && v[4..8] == Pack(4, x.maxQueue);
      assert v[8..10] == Pack(2, x.dropReason) && v[10..12] == Pack(2, x.retryAfterMs);
    }
  }

  /** `backpressure` reads exactly what starts with a packed record. */
  lemma {:induction false} BackpressureRead(v: bytes, x: Backpressure)
    ensures UnpackBackpressure(v) == Ok(Some(x)) <==> BackpressureFits(x) && PackBackpressure(x) <= v
    ensures UnpackBackpressure(v) == Ok(None) <==> |v| < 12
    ensures UnpackBackpressure(v).Ok?
  {
    BackpressureLayout(x);
    if BackpressureFits(x) && PackBackpressure(x) <= v {
      PrefixSlice(PackBackpressure(x), v, 0, 4);
      PrefixSlice(PackBackpressure(x), v, 4, 8);
      PrefixSlice(PackBackpressure(x), v, 8, 10);
      PrefixSlice(PackBackpressure(x), v, 10, 12);
    }
    if UnpackBackpressure(v) == Ok(Some(x)) { BackpressureBytes(v, x); }
  }

  lemma {:induction false} BackpressureBytes(v: bytes, x: Backpressure)
    requires UnpackBackpressure(v) == Ok(Some(x))
    ensures BackpressureFits(x) && PackBackpressure(x) == v[..12]
  {
    PackRead(v[0..4]);
    PackRead(v[4..8]);
    PackRead(v[8..10]);
    PackRead(v[10..12]);
    assert v[..12] == v[0..4] + v[4..8] + v[8..10] + v[10..12];
  }

  // --- errors ---

  lemma {:induction false} ErrorRanges(x: ErrorInfo)
    ensures ErrorFits(x) <==>
            && 0 <= x.errorCode < 0x1_0000 && 0 <= x.severity < 0x1_0000 && |x.message| < 0x100
            && ValidUtf8(x.message)
            && (x.details.Some? ==> |x.details.value| < 0x1_0000 && ValidUtf8(x.details.value))
  {
    Pow256Values();
  }

  lemma {:induction false} ErrorLayout(x: ErrorInfo)
    requires ErrorFits(x)
    ensures var v, n, det := PackError(x), |x.message|, if x.details.Some? then x.details.value else [];
      && |v| == n + 7 + |det| && FromBE(v[0..2]) == x.errorCode && FromBE(v[2..4]) == x.severity && v[4] == n
      && v[5..n + 5] == x.message && FromBE(v[n + 5..n + 7]) == |det| && v[n + 7..] == det
  {
    OneByte(|x.message|);
    ErrorParts(Pack(2, x.errorCode), Pack(2, x.severity), |x.message|, x.message, Pack(2, |OrEmpty(x.details)|), OrEmpty(x.details));
  }

  lemma {:induction false} ErrorParts(code: bytes, severity: bytes, ml: byte, message: bytes, dl: bytes, details: bytes)
    requires |code| == |severity| == |dl| == 2
    ensures var v, n := code + severity + [ml] + message + dl + details, |message|;
      && |v| == n + 7 + |details| && v[0..2] == code && v[2..4] == severity && v[4] == ml
      && v[5..n + 5] == message && v[n + 5..n + 7] == dl && v[n + 7..] == details
  {
  }

  /** `error_info` on any bytes: nothing if they are too short for the message; else
      code, severity and message, and the details as far as they are there. */
  lemma {:induction false} ErrorRead(v: bytes)
    ensures UnpackError(v) == Ok(None) <==> |v| < 7 || |v| < v[4] as int + 5
    ensures UnpackError(v).Ok? && UnpackError(v).value.Some? ==>
              var x, n := UnpackError(v).value.value, v[4] as int;
              && FromBE(v[0..2]) == x.errorCode && FromBE(v[2..4]) == x.severity && v[5..n + 5] == x.message
              && (|v| < n + 7 ==> x.details == None)
              && (|v| >= n + 7 ==>
                    var d := FromBE(v[n + 5..n + 7]);
                    x.details == if d == 0 then None else if |v| < n + 7 + d then Some(v[n + 7..]) else Some(v[n + 7..n + 7 + d]))
  {
    if |v| >= 7 && |v| >= v[4] as int + 5 { ErrorTail(v, v[4]); }
  }

  lemma {:induction false} ErrorTail(v: bytes, n: nat)
    requires |v| >= 7 && v[4] == n && |v| >= n + 5
    ensures |v| >= n + 7 ==>
              var d := FromBE(v[n + 5..n + 7]);
              Slice(v, n + 7, n + 7 + d) == if |v| < n + 7 + d then v[n + 7..] else v[n + 7..n + 7 + d]
  {
  }

  // --- invocations ---

  lemma {:induction false} ModelRanges(x: ModelInvocation)
    ensures ModelFits(x) <==>
            && |x.modelName| < 0x100 && |x.task| < 0x100 && |x.parametersJson| < 0x100
            && ValidUtf8(x.modelName) && ValidUtf8(x.task) && ValidUtf8(x.parametersJson)
            && 0 <= x.timeoutMs < 0x1_0000_0000
  {
    Pow256Values();
  }

  lemma {:induction false} ModelLayout(x: ModelInvocation)
    requires ModelFits(x)
    ensures var v, a, b, c := PackModel(x), |x.modelName|, |x.modelName| + |x.task|, |x.modelName| + |x.task| + |x.parametersJson|;
      && |v| == c + 7 && v[0] == a && v[1] == |x.task| && v[2] == |x.parametersJson|
      && v[3..a + 3] == x.modelName && v[a + 3..b + 3] == x.task && v[b + 3..c + 3] == x.parametersJson
      && FromBE(v[c + 3..c + 7]) == x.timeoutMs
  {
    OneByte(|x.modelName|);
    OneByte(|x.task|);
    OneByte(|x.parametersJson|);
    ModelParts([|x.modelName|] + [|x.task|] + [|x.parametersJson|], x.modelName, x.task, x.parametersJson, Pack(4, x.timeoutMs));
  }

  lemma {:induction false} ModelParts(h: bytes, name: bytes, task: bytes, json: bytes, t: bytes)
    requires |h| == 3 && |t| == 4
    ensures var v, a, b, c := h + name + task + json + t, |name|, |name| + |task|, |name| + |task| + |json|;
      && |v| == c + 7 && v[0] == h[0] && v[1] == h[1] && v[2] == h[2]
      && v[3..a + 3] == name && v[a + 3..b + 3] == task && v[b + 3..c + 3] == json && v[c + 3..c + 7] == t
  {
  }

  /** `model_invocation` on any bytes: nothing below three bytes, no timeout if its
      four bytes are not there, and the strings as long as the first three bytes
      say, or as far as they go. */
  lemma {:induction false} ModelRead(v: bytes)
    ensures UnpackModel(v) == Ok(None) <==> |v| < 3
    ensures UnpackModel(v).Ok? && |v| >= 3 ==>
              var x := UnpackModel(v).value.value;
              var a, b, c := v[0] as int, v[0] as int + v[1] as int, v[0] as int + v[1] as int + v[2] as int;
              && x.modelName == Slice(v, 3, a + 3) && x.task == Slice(v, a + 3, b + 3)
              && x.parametersJson == Slice(v, b + 3, c + 3)
              && (if |v| < c + 7 then x.timeoutMs == 0 else x.timeoutMs == FromBE(v[c + 3..c + 7]))
  {
  }

  lemma {:induction false} ToolRanges(x: ToolInvocation)
    ensures ToolFits(x) <==>
            && |x.toolName| < 0x100 && |x.parametersJson| < 0x100
            && ValidUtf8(x.toolName) && ValidUtf8(x.parametersJson) && 0 <= x.timeoutMs < 0x1_0000_0000
  {
    Pow256Values();
  }

  lemma {:induction false} ToolLayout(x: ToolInvocation)
    requires ToolFits(x)
    ensures var v, a, b := PackTool(x), |x.toolName|, |x.toolName| + |x.parametersJson|;
      && |v| == b + 6 && v[0] == a && v[1] == |x.parametersJson|
      && v[2..a + 2] == x.toolName && v[a + 2..b + 2] == x.parametersJson && FromBE(v[b + 2..b + 6]) == x.timeoutMs
  {
    OneByte(|x.toolName|);
    OneByte(|x.parametersJson|);
    ToolParts([|x.toolName|] + [|x.parametersJson|], x.toolName, x.parametersJson, Pack(4, x.timeoutMs));
  }

  lemma {:induction false} ToolParts(h: bytes, name: bytes, json: bytes, t: bytes)
    requires |h| == 2 && |t| == 4
    ensures var v, a, b := h + name + json + t, |name|, |name| + |json|;
      && |v| == b + 6 && v[0] == h[0] && v[1] == h[1]
      && v[2..a + 2] == name && v[a + 2..b + 2] == json && v[b + 2..b + 6] == t
  {
  }

  lemma {:induction false} ToolRead(v: bytes)
    ensures UnpackTool(v) == Ok(None) <==> |v| < 2
    ensures UnpackTool(v).Ok? && |v| >= 2 ==>
              var x := UnpackTool(v).value.value; var a, b := v[0] as int, v[0] as int + v[1] as int;
              && x.toolName == Slice(v, 2, a + 2) && x.parametersJson == Slice(v, a + 2, b + 2)
              && (if |v| < b + 6 then x.timeoutMs == 0 else x.timeoutMs == FromBE(v[b + 2..b + 6]))
  {
  }

  // --- metadata, blob references, acknowledgements ---

  lemma {:induction false} MetaLayout(m: Meta)
    ensures MetaFits(m) <==>
            |m.key| < 0x100 && |m.value| < 0x1_0000 && ValidUtf8(m.key) && ValidUtf8(m.value)
    ensures MetaFits(m) ==>
              var v, k := PackMeta(m), |m.key|;
              && |v| == k + 3 + |m.value| && v[0] == k && v[1..k + 1] == m.key
              && FromBE(v[k + 1..k + 3]) == |m.value| && v[k + 3..] == m.value
  {
    Pow256Values();
    if MetaFits(m) {
      OneByte(|m.key|);
      MetaParts(|m.key|, m.key, Pack(2, |m.value|), m.value);
    }
  }

  lemma {:induction false} MetaParts(kl: byte, key: bytes, vl: bytes, value: bytes)
    requires |vl| == 2
    ensures var v, k := [kl] + key + vl + value, |key|;
      |v| == k + 3 + |value| && v[0] == kl && v[1..k + 1] == key && v[k + 1..k + 3] == vl && v[k + 3..] == value
  {
  }

  /** The entries one after the other. */
  lemma {:induction false} MetadataAppend(ms: seq<Meta>, ns: seq<Meta>)
    ensures PackMetadata(ms + ns) == PackMetadata(ms) + PackMetadata(ns)
    decreases |ms|
  {
    if ms == [] {
      assert ms + ns == ns;
    } else {
      assert (ms + ns)[1..] == ms[1..] + ns;
      MetadataAppend(ms[1..], ns);
      Assoc(PackMeta(ms[0]), PackMetadata(ms[1..]), PackMetadata(ns));
    }
  }

  /** Entries put into a dict one after the other. */
  function PutAll(acc: seq<Meta>, ms: seq<Meta>): seq<Meta>
    decreases |ms|
  {
    if ms == [] then acc else PutAll(MetaPut(acc, ms[0]), ms[1..])
  }

  /** A later value under the same key takes the place of the earlier one; a new key
      goes last. */
  lemma {:induction false} MetaPutExactly(acc: seq<Meta>, m: Meta, i: nat)
    ensures (i < |acc| && acc[i].key == m.key && forall j :: 0 <= j < i ==> acc[j].key != m.key) ==>
              MetaPut(acc, m) == acc[i := m]
    ensures (forall j :: 0 <= j < |acc| ==> acc[j].key != m.key) ==> MetaPut(acc, m) == acc + [m]
    decreases i
  {
    if forall j :: 0 <= j < |acc| ==> acc[j].key != m.key {
      MetaPutAppends(acc, m);
    } else if 0 < i < |acc| {
      MetaPutExactly(acc[1..], m, i - 1);
      assert forall j :: 0 <= j < |acc[1..]| ==> acc[1..][j] == acc[j + 1];
    }
  }

  /** `metadata` reads the entries that are there, in order, and goes on with what
      follows them. */
  lemma {:induction false} MetadataRead(ms: seq<Meta>, rest: bytes, acc: seq<Meta>)
    requires forall i :: 0 <= i < |ms| ==> MetaFits(ms[i])
    ensures UnpackMetadata(PackMetadata(ms) + rest, acc) == UnpackMetadata(rest, PutAll(acc, ms))
    decreases |ms|
  {
    if ms == [] {
      assert PackMetadata(ms) + rest == rest;
    } else {
      Assoc(PackMeta(ms[0]), PackMetadata(ms[1..]), rest);
      MetaHead(ms[0], PackMetadata(ms[1..]) + rest, acc);
      MetadataRead(ms[1..], rest, MetaPut(acc, ms[0]));
    }
  }

  /** Where it stops: at the end, at a key or a value that is cut off; a length that
      is cut off is an error, and so is a key that is not UTF-8. */
  lemma {:induction false} MetadataStops(v: bytes, acc: seq<Meta>)
    ensures v == [] ==> UnpackMetadata(v, acc) == Ok(acc)
    ensures v != [] ==>
              var k := v[0] as int;
              && (|v| < k + 1 ==> UnpackMetadata(v, acc) == Ok(acc))
              && (|v| >= k + 1 && !ValidUtf8(v[1..k + 1]) ==> UnpackMetadata(v, acc) == Err(UnicodeError))
              && (k + 1 <= |v| < k + 3 && ValidUtf8(v[1..k + 1]) ==> UnpackMetadata(v, acc) == Err(StructError))
              && (|v| >= k + 3 && ValidUtf8(v[1..k + 1]) && |v| < k + 3 + FromBE(v[k + 1..k + 3]) ==>
                    UnpackMetadata(v, acc) == Ok(acc))
  {
  }

  /** A blob reference: kind, length of the identifier, two zero bytes, the size with
      its lowest byte first, the offset with its highest byte first. */
  lemma {:induction false} BlobRefLayout(x: BlobRef)
    ensures BlobRefFits(x) <==>
            && 0 <= x.refType < 0x100 && |x.identifier| < 0x100 && ValidUtf8(x.identifier)
            && 0 <= x.size < 0x1_0000_0000 && 0 <= x.offset < 0x1_0000_0000
    ensures BlobRefFits(x) ==>
              var v := PackBlobRef(x);
              && |v| == 12 + |x.identifier| && v[0] == x.refType && v[1] == |x.identifier| && v[2] == 0 && v[3] == 0
              && FromBE([v[7], v[6], v[5], v[4]]) == x.size && FromBE(v[8..12]) == x.offset && v[12..] == x.identifier
  {
    Pow256Values();
    if BlobRefFits(x) {
      var v, s := PackBlobRef(x), Pack(4, x.size);
      OneByte(x.refType);
      OneByte(|x.identifier|);
      assert [v[7], v[6], v[5], v[4]] == s;
      assert v[8..12] == Pack(4, x.offset) && v[12..] == x.identifier;
    }
  }

  /** An acknowledgement: a zero byte, whatever its type, and the message. */
  lemma {:induction false} AckLayout(x: AckInfo)
    ensures var v := PackAck(x); |v| == 1 + |x.message| && v[0] == 0 && v[1..] == x.message
  {
  }
}
