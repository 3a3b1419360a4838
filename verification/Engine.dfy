/** One hybrid key exchange, run sequentially or handed to a worker: c_dispatch/src/engine.c and
  * c_dispatch/src/dispatcher.c.  The ECDH and KEM libraries are deterministic oracles. */
module Engine {
  import opened Basics

  datatype Role = Client | Server

  const PROFILE_HYBRID := 0
  const PROFILE_PURE_CLASSICAL := 1
  const PROFILE_PURE_QUANTUM := 2
  const CURVE_NONE := 0
  const CURVE_X25519 := 1
  const PQC_NONE := 0
  const PQC_MLKEM_768 := 1

  datatype Combo = Combo(profile: int, curve: int, pqcAlg: int, pqcName: string)

  type Secret48 = s: seq<byte> | |s| == 48 witness Zeros(48)

  type Secret64 = s: seq<byte> | |s| == 64 witness Zeros(64)

  /** What the ECDH helper leaves in a cleared buffer; a failure may leave a length behind. */
  datatype Derived = Derived(ok: bool, secret: Secret48, len: nat)

  /** Key agreement on a curve, and the KEM secret of an algorithm name and role, if any. */
  datatype Oracles = Oracles(ecdh: int -> Derived, kem: (string, Role) -> Option<seq<byte>>)

  datatype Result = Result(ecdhSecret: Secret48, ecdhLen: nat, kemSecret: Secret64, kemLen: nat, ecdhOk: bool, kemOk: bool)

  const CLEARED := Result(Zeros(48), 0, Zeros(64), 0, false, false)

  /** The status code and the result struct that the caller sees. */
  datatype Outcome = Outcome(code: int, result: Result)

  const OK := 0
  const FAILED := -1

  // What a result holds

  function Kept(secret: seq<byte>): nat {
    if |secret| > 64 then 64 else |secret|
  }

  /** A secret copied over the start of a 64-byte buffer. */
  function Splice(buf: Secret64, secret: seq<byte>): Secret64 {
    secret[..Kept(secret)] + buf[Kept(secret)..]
  }

  function WithEcdh(r: Result, d: Derived): Result {
    r.(ecdhSecret := d.secret, ecdhLen := d.len, ecdhOk := d.ok)
  }

  function WithKem(r: Result, k: Option<seq<byte>>): Result {
    if k.None? then r.(kemOk := false)
    else r.(kemSecret := Splice(r.kemSecret, k.value), kemLen := Kept(k.value), kemOk := true)
  }

  // Which primitives a combo asks for

  predicate ClassicalOnly(c: Combo) {
    c.profile == PROFILE_PURE_CLASSICAL || c.pqcAlg == PQC_NONE
  }

  predicate QuantumOnly(c: Combo) {
    !ClassicalOnly(c) && (c.profile == PROFILE_PURE_QUANTUM || c.curve == CURVE_NONE)
  }

  predicate WantsEcdh(c: Combo) {
    !QuantumOnly(c)
  }

  predicate WantsKem(c: Combo) {
    !ClassicalOnly(c)
  }

  predicate EcdhServed(o: Oracles, c: Combo) {
    WantsEcdh(c) ==> o.ecdh(c.curve).ok
  }

  predicate KemServed(o: Oracles, c: Combo, role: Role) {
    WantsKem(c) ==> o.kem(c.pqcName, role).Some?
  }

  /** The sequential engine: a wanted KEM runs unless a wanted ECDH failed before it; success means
    * that every wanted primitive succeeded. */
  function Sequential(o: Oracles, c: Combo, role: Role): Outcome {
    var r := if WantsEcdh(c) then WithEcdh(CLEARED, o.ecdh(c.curve)) else CLEARED;
    Outcome(if EcdhServed(o, c) && KemServed(o, c, role) then OK else FAILED,
            if WantsKem(c) && EcdhServed(o, c) then WithKem(r, o.kem(c.pqcName, role)) else r)
  }

  /** Whether the parallel engine hands the KEM to its worker. */
  predicate Handed(c: Combo) {
    c.pqcAlg != PQC_NONE && c.curve != CURVE_NONE
  }

  /** The result of a request that was handed over: both primitives run, whatever either returns. */
  function Joined(o: Oracles, c: Combo, role: Role): Outcome {
    Outcome(if o.ecdh(c.curve).ok && o.kem(c.pqcName, role).Some? then OK else FAILED,
            WithKem(WithEcdh(CLEARED, o.ecdh(c.curve)), o.kem(c.pqcName, role)))
  }

  /** The parallel engine; without initialisation it fails and leaves the struct as it was. */
  function Parallel(o: Oracles, c: Combo, role: Role, initialised: bool, before: Result): Outcome {
    if !initialised then Outcome(FAILED, before)
    else if !Handed(c) then Sequential(o, c, role)
    else Joined(o, c, role)
  }

  // What the caller finds, in numbers

  /** A KEM secret k stands at the start of a buffer, cut off after 64 bytes; what was there before
    * stays behind it. */
  predicate KemCopied(to: Secret64, len: nat, before: Secret64, k: seq<byte>) {
    && len == (if |k| < 64 then |k| else 64)
    && (forall j :: 0 <= j < len ==> to[j] == k[j])
    && (forall j :: len <= j < 64 ==> to[j] == before[j])
  }

  lemma KemCopies(r: Result, k: seq<byte>)
    ensures var r' := WithKem(r, Some(k)); KemCopied(r'.kemSecret, r'.kemLen, r.kemSecret, k)
  {
  }

  /** Status 0 and the whole of both secrets, or status -1. */
  predicate BothServed(out: Outcome, d: Derived, k: Option<seq<byte>>) {
    && out.code == (if d.ok && k.Some? then 0 else -1)
    && (out.code == 0 ==>
          && out.result.ecdhSecret == d.secret && out.result.ecdhLen == d.len
          && out.result.kemLen == (if |k.value| < 64 then |k.value| else 64)
          && (forall j :: 0 <= j < out.result.kemLen ==> out.result.kemSecret[j] == k.value[j])
          && (forall j :: out.result.kemLen <= j < 64 ==> out.result.kemSecret[j] == 0))
  }

  lemma JoinedServesBoth(o: Oracles, c: Combo, role: Role)
    ensures BothServed(Joined(o, c, role), o.ecdh(c.curve), o.kem(c.pqcName, role))
  {
    var k := o.kem(c.pqcName, role);
    if k.Some? {
      KemCopies(WithEcdh(CLEARED, o.ecdh(c.curve)), k.value);
    }
  }

  /** What the sequential engine returns for each kind of combo: marked 1, or without an algorithm, it
    * is its ECDH; otherwise, marked 2 or without a curve, its KEM; otherwise both. */
  lemma SequentialServes(o: Oracles, c: Combo, role: Role)
    ensures var out, d, k := Sequential(o, c, role), o.ecdh(c.curve), o.kem(c.pqcName, role);
      if c.profile == 1 || c.pqcAlg == 0 then
        && out.code == (if d.ok then 0 else -1)
        && out.result.ecdhSecret == d.secret && out.result.ecdhLen == d.len && out.result.kemLen == 0
      else if c.profile == 2 || c.curve == 0 then
        && out.code == (if k.Some? then 0 else -1) && out.result.ecdhLen == 0
        && (k.Some? ==> KemCopied(out.result.kemSecret, out.result.kemLen, CLEARED.kemSecret, k.value))
      else BothServed(out, d, k)
  {
    if !QuantumOnly(c) && !ClassicalOnly(c) {
      JoinedServesBoth(o, c, role);
    } else if QuantumOnly(c) && o.kem(c.pqcName, role).Some? {
      KemCopies(CLEARED, o.kem(c.pqcName, role).value);
    }
  }

  // The struct, filled step by step

  class SharedResult {
    const ecdhSecret: array<byte>
    const kemSecret: array<byte>
    var ecdhLen: nat
    var kemLen: nat
    var ecdhOk: bool
    var kemOk: bool

    ghost predicate Valid()
    {
      ecdhSecret.Length == 48 && kemSecret.Length == 64 && ecdhSecret != kemSecret
    }

    ghost function Value(): Result
      requires Valid()
      reads this, ecdhSecret, kemSecret
    {
      Result(ecdhSecret[..], ecdhLen, kemSecret[..], kemLen, ecdhOk, kemOk)
    }

    constructor ()
      ensures Valid() && fresh(ecdhSecret) && fresh(kemSecret)
    {
      ecdhSecret := new byte[48];
      kemSecret := new byte[64];
      ecdhLen, kemLen, ecdhOk, kemOk := 0, 0, false, false;
    }

    method Clear()
      requires Valid()
      modifies this, ecdhSecret, kemSecret
      ensures Value() == CLEARED
    {
      forall i | 0 <= i < 48 {
        ecdhSecret[i] := 0;
      }
      forall i | 0 <= i < 64 {
        kemSecret[i] := 0;
      }
      ecdhLen, kemLen, ecdhOk, kemOk := 0, 0, false, false;
    }

    /** perform_ecdh on this struct. */
    method PerformEcdh(o: Oracles, curve: int) returns (ok: bool)
      requires Valid()
      modifies this`ecdhLen, ecdhSecret
      ensures ok == o.ecdh(curve).ok
      ensures Value() == WithEcdh(old(Value()), o.ecdh(curve)).(ecdhOk := old(ecdhOk))
    {
      var d := o.ecdh(curve);
      forall i | 0 <= i < 48 {
        ecdhSecret[i] := d.secret[i];
      }
      ecdhLen := d.len;
      ok := d.ok;
    }

    /** perform_kem_local on this struct: at most 64 bytes of the secret are copied. */
    method PerformKemLocal(o: Oracles, name: string, role: Role) returns (ok: bool)
      requires Valid()
      modifies this`kemLen, kemSecret
      ensures ok == o.kem(name, role).Some?
      ensures Value() == WithKem(old(Value()), o.kem(name, role)).(kemOk := old(kemOk))
      ensures ok ==> KemCopied(kemSecret[..], kemLen, old(kemSecret[..]), o.kem(name, role).value)
      ensures !ok ==> Value() == old(Value())
    {
      var secret := o.kem(name, role);
      if secret.None? {
        return false;
      }
      var copyLen := |secret.value|;
      if copyLen > 64 {
        copyLen := 64;
      }
      forall i | 0 <= i < copyLen {
        kemSecret[i] := secret.value[i];
      }
      kemLen := copyLen;
      ok := true;
    }

    method ExecuteSequential(o: Oracles, c: Combo, role: Role) returns (code: int)
      requires Valid()
      modifies this, ecdhSecret, kemSecret
      ensures Outcome(code, Value()) == Sequential(o, c, role)
    {
      Clear();
      if c.profile == PROFILE_PURE_CLASSICAL || c.pqcAlg == PQC_NONE {
        ecdhOk := PerformEcdh(o, c.curve);
        return if ecdhOk then 0 else -1;
      }
      if c.profile == PROFILE_PURE_QUANTUM || c.curve == CURVE_NONE {
        kemOk := PerformKemLocal(o, c.pqcName, role);
        return if kemOk then 0 else -1;
      }
      ecdhOk := PerformEcdh(o, c.curve);
      if !ecdhOk {
        return -1;
      }
      kemOk := PerformKemLocal(o, c.pqcName, role);
      return if ecdhOk && kemOk then 0 else -1;
    }
  }

  // Routing

  datatype Host = Host(isVirtualized: bool, logicalCores: int)

  datatype Route = RouteSequential | RouteParallel

  /** Parallel exactly for a hybrid suite heavier than X25519 with ML-KEM-768, on a host with at least
    * two cores, or three when virtualised; so the rules are exhaustive and the default never applies. */
  function AdaptiveDispatch(h: Host, c: Combo): (r: Route)
    ensures r == RouteParallel
            <==> && c.profile == PROFILE_HYBRID && WantsEcdh(c) && WantsKem(c)
                 && h.logicalCores >= (if h.isVirtualized then 3 else 2)
                 && !(c.curve == CURVE_X25519 && c.pqcAlg == PQC_MLKEM_768)
  {
    if c.profile != PROFILE_HYBRID || c.pqcAlg == PQC_NONE || c.curve == CURVE_NONE then RouteSequential
    else if h.logicalCores <= 1 then RouteSequential
    else if h.isVirtualized && h.logicalCores <= 2 then RouteSequential
    else if c.curve == CURVE_X25519 && c.pqcAlg == PQC_MLKEM_768 then RouteSequential
    else if h.logicalCores >= 2 then RouteParallel
    else RouteSequential
  }

  function DispatchExecute(o: Oracles, h: Host, c: Combo, role: Role, initialised: bool, before: Result): Outcome {
    if AdaptiveDispatch(h, c) == RouteParallel then Parallel(o, c, role, initialised, before)
    else Sequential(o, c, role)
  }

  /** The same status, and on success the same secrets and lengths. */
  predicate Agrees(x: Outcome, y: Outcome) {
    x.code == y.code && (x.code == OK ==> x.result == y.result)
  }

  /** Handing the KEM to the worker gives what running it in line gives, for any libraries, exactly
    * when the combo asks for both primitives. */
  lemma JoinedAgrees(c: Combo, role: Role)
    requires Handed(c)
    ensures (forall o: Oracles :: Agrees(Joined(o, c, role), Sequential(o, c, role)))
            <==> (c.profile != PROFILE_PURE_CLASSICAL && c.profile != PROFILE_PURE_QUANTUM)
  {
    if c.profile == PROFILE_PURE_CLASSICAL {
      var o := Oracles(_ => Derived(true, Zeros(48), 32), (_, _) => None);
      assert !Agrees(Joined(o, c, role), Sequential(o, c, role));
    } else if c.profile == PROFILE_PURE_QUANTUM {
      var o := Oracles(_ => Derived(false, Zeros(48), 0), (_, _) => Some([]));
      assert !Agrees(Joined(o, c, role), Sequential(o, c, role));
    }
  }

  /** Routing never changes the result, for any libraries, exactly when the engine is initialised
    * or the combo is routed to the sequential engine anyway. */
  lemma DispatchAgrees(h: Host, c: Combo, role: Role, initialised: bool, before: Result)
    ensures (forall o: Oracles :: Agrees(DispatchExecute(o, h, c, role, initialised, before), Sequential(o, c, role)))
            <==> (initialised || AdaptiveDispatch(h, c) == RouteSequential)
  {
    if initialised && AdaptiveDispatch(h, c) == RouteParallel {
      JoinedAgrees(c, role);
    } else if AdaptiveDispatch(h, c) == RouteParallel {
      var o := Oracles(_ => Derived(true, Zeros(48), 32), (_, _) => Some([]));
      assert !Agrees(DispatchExecute(o, h, c, role, initialised, before), Sequential(o, c, role));
    }
  }

  /** On failure the two engines may leave different bytes behind: exactly when ECDH failed and the
    * KEM, which only the parallel engine still ran, succeeded. */
  lemma JoinedOnFailure(o: Oracles, c: Combo, role: Role)
    requires Handed(c) && c.profile == PROFILE_HYBRID
    ensures Joined(o, c, role) == Sequential(o, c, role)
            <==> (o.ecdh(c.curve).ok || o.kem(c.pqcName, role).None?)
  {
    assert WithKem(WithEcdh(CLEARED, o.ecdh(c.curve)), o.kem(c.pqcName, role)).kemOk == o.kem(c.pqcName, role).Some?;
  }

  /** The repository's table of combinations, without labels. */
  const ALGORITHM_COMBOS: seq<Combo> := [
    Combo(0, 1, 1, "ML-KEM-768"), Combo(0, 2, 1, "ML-KEM-768"), Combo(0, 3, 2, "ML-KEM-1024"),
    Combo(0, 3, 3, "FrodoKEM-1344-AES"), Combo(0, 3, 4, "BIKE-L5"),
    Combo(1, 1, 0, ""), Combo(1, 2, 0, ""), Combo(1, 3, 0, ""),
    Combo(2, 0, 1, "ML-KEM-768"), Combo(2, 0, 2, "ML-KEM-1024")]

  /** The routes of the table on an ordinary host: rows 1 to 4 are handed over, and on a virtual host
    * with two cores, or any with one, none is. */
  lemma TableRoutes(i: nat)
    requires i < |ALGORITHM_COMBOS|
    ensures var c := ALGORITHM_COMBOS[i];
            && (AdaptiveDispatch(Host(false, 2), c) == RouteParallel <==> 1 <= i <= 4)
            && (AdaptiveDispatch(Host(true, 3), c) == RouteParallel <==> 1 <= i <= 4)
            && AdaptiveDispatch(Host(true, 2), c) == AdaptiveDispatch(Host(false, 1), c) == RouteSequential
  {
  }

  /** In the table an algorithm's number and its name go together. */
  lemma TableNames(i: nat, j: nat)
    requires i < |ALGORITHM_COMBOS| && j < |ALGORITHM_COMBOS|
    ensures ALGORITHM_COMBOS[i].pqcAlg == ALGORITHM_COMBOS[j].pqcAlg <==> ALGORITHM_COMBOS[i].pqcName == ALGORITHM_COMBOS[j].pqcName
  {
  }

  /** Every combination in the table gets the same status and secrets from an initialised engine,
    * sequential, parallel or routed, on any host. */
  lemma TableAgrees(o: Oracles, h: Host, i: nat, role: Role, before: Result)
    requires i < |ALGORITHM_COMBOS|
    ensures var c := ALGORITHM_COMBOS[i];
            && Agrees(Parallel(o, c, role, true, before), Sequential(o, c, role))
            && Agrees(DispatchExecute(o, h, c, role, true, before), Sequential(o, c, role))
  {
    var c := ALGORITHM_COMBOS[i];
    assert c.profile == PROFILE_HYBRID || !Handed(c);
    if Handed(c) {
      JoinedAgrees(c, role);
    }
    DispatchAgrees(h, c, role, true, before);
  }
}
