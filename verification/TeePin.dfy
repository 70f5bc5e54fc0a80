/** Pinning a prover's measurements: `TeePolicyOptions::run` and `Pin::extend` of xtask/src/tee_policy.rs. */
module TeePin {
  import opened Collections
  import opened Result

  type Hash = nat
  type Measurement = nat

  datatype DstackPins = DstackPins(
    appId: Hash, hpkeKey: Hash, keyProvider: Hash,
    osImages: seq<Hash>, measurements: seq<Measurement>, composeHashes: seq<Hash>, tcbStatuses: seq<string>)

  datatype Pins =
    | Dstack(dstack: DstackPins)
    | Nitro(hpkeKey: Option<Hash>, measurements: seq<Measurement>)

  datatype Platform =
    | DstackTdx(appId: Hash, providerName: string, provider: Hash, tcbStatus: string,
                composeHash: Hash, osImage: Hash, measurement: Measurement)
    | AwsNitro(measurement: Measurement)
    | OtherPlatform

  datatype Identity = Identity(platform: Platform, hpkeKey: Hash)

  /** One invocation: what the prover attests, the options, and whether the candidate policy passes its own
      check and the prover's. */
  datatype Request = Request(
    identity: Identity, built: Option<Measurement>, pinKey: bool, gpuRequired: bool, replace: bool, accepted: bool)

  datatype Policy = Policy(pins: Pins, gpuRequired: bool)

  predicate SamePlatform(pins: Pins, platform: Platform) {
    (pins.Dstack? && platform.DstackTdx?) || (pins.Nitro? && platform.AwsNitro?)
  }

  /** `push_new`. */
  function PushNew<T(==)>(values: seq<T>, value: T): seq<T> {
    if value in values then values else values + [value]
  }

  function NewDstack(found: Platform, hpkeKey: Hash): DstackPins
    requires found.DstackTdx?
  {
    DstackPins(found.appId, hpkeKey, found.provider, [], [], [], ["UpToDate"])
  }

  /** `Pin::extend`. */
  function Extended(current: Option<Pins>, r: Request): Option<Pins> {
    var found := r.identity.platform;
    if current.Some? && !SamePlatform(current.value, found) then None
    else
      match found
      case DstackTdx(appId, providerName, provider, tcbStatus, composeHash, osImage, measurement) =>
        var pins := if current.Some? then current.value.dstack else NewDstack(found, r.identity.hpkeKey);
        if r.built.Some? || r.pinKey || providerName != "kms" then None
        else if pins.appId != appId || pins.hpkeKey != r.identity.hpkeKey || pins.keyProvider != provider then None
        else if tcbStatus !in pins.tcbStatuses then None
        else
          Some(Dstack(pins.(composeHashes := PushNew(pins.composeHashes, composeHash),
                            osImages := PushNew(pins.osImages, osImage),
                            measurements := PushNew(pins.measurements, measurement))))
      case AwsNitro(measurement) =>
        var pins := if current.Some? then current.value else Nitro(None, []);
        if r.built != Some(measurement) then None
        else if pins.hpkeKey.Some? && pins.hpkeKey.value != r.identity.hpkeKey then None
        else
          Some(Nitro(if r.pinKey then Some(r.identity.hpkeKey) else pins.hpkeKey,
                     PushNew(pins.measurements, measurement)))
      case OtherPlatform => None
  }

  /** The policy file after one invocation, or nothing when it fails. */
  function Updated(file: Option<Policy>, r: Request): Option<Policy> {
    var current := if r.replace then None else file;
    match Extended(if current.Some? then Some(current.value.pins) else None, r)
    case None => None
    case Some(pins) =>
      if r.accepted then Some(Policy(pins, r.gpuRequired || (current.Some? && current.value.gpuRequired))) else None
  }

  /** The file after a list of invocations; failures leave it. */
  function After(file: Option<Policy>, requests: seq<Request>): Option<Policy> {
    if |requests| == 0 then file
    else
      var before := After(file, requests[..|requests| - 1]);
      var after := Updated(before, requests[|requests| - 1]);
      if after.Some? then after else before
  }

  ghost predicate NoRepeats(pins: Pins) {
    match pins
    case Dstack(d) => Distinct(d.osImages) && Distinct(d.measurements) && Distinct(d.composeHashes)
    case Nitro(_, measurements) => Distinct(measurements)
  }

  /** `later` identifies the same deployment as `earlier` and has lost nothing. */
  ghost predicate Extends(earlier: Pins, later: Pins) {
    match earlier
    case Dstack(d) =>
      && later.Dstack?
      && later.dstack.appId == d.appId && later.dstack.hpkeKey == d.hpkeKey && later.dstack.keyProvider == d.keyProvider
      && later.dstack.tcbStatuses == d.tcbStatuses
      && d.osImages <= later.dstack.osImages && d.measurements <= later.dstack.measurements
      && d.composeHashes <= later.dstack.composeHashes
    case Nitro(key, measurements) =>
      later.Nitro? && (key.Some? ==> later.hpkeKey == key) && measurements <= later.measurements
  }

  lemma {:induction false} PushNewKeeps<T(!new)>(values: seq<T>, value: T)
    ensures values <= PushNew(values, value) && value in PushNew(values, value)
    ensures Distinct(values) ==> Distinct(PushNew(values, value))
  {
  }

  lemma {:induction false} ExtendedExtends(current: Pins, r: Request)
    requires Extended(Some(current), r).Some?
    ensures Extends(current, Extended(Some(current), r).value)
    ensures NoRepeats(current) ==> NoRepeats(Extended(Some(current), r).value)
  {
    hide PushNew, Distinct;
    var platform := r.identity.platform;
    match current
    case Dstack(d) =>
      PushNewKeeps(d.osImages, platform.osImage);
      PushNewKeeps(d.composeHashes, platform.composeHash);
      PushNewKeeps(d.measurements, platform.measurement);
    case Nitro(_, measurements) => PushNewKeeps(measurements, platform.measurement);
  }

  /** What the prover attests is pinned. */
  ghost predicate Pinned(pins: Pins, identity: Identity) {
    match identity.platform
    case DstackTdx(appId, _, provider, tcbStatus, composeHash, osImage, measurement) =>
      && pins.Dstack?
      && pins.dstack.appId == appId && pins.dstack.keyProvider == provider && pins.dstack.hpkeKey == identity.hpkeKey
      && tcbStatus in pins.dstack.tcbStatuses && composeHash in pins.dstack.composeHashes
      && osImage in pins.dstack.osImages && measurement in pins.dstack.measurements
    case AwsNitro(measurement) =>
      && pins.Nitro? && measurement in pins.measurements
      && (pins.hpkeKey.Some? ==> pins.hpkeKey.value == identity.hpkeKey)
    case OtherPlatform => false
  }

  /** Nothing is pinned but what was and what the prover attests. */
  ghost predicate OnlyAdds(current: Option<Pins>, pins: Pins, platform: Platform) {
    match pins
    case Dstack(d) =>
      && platform.DstackTdx? && (current.Some? ==> current.value.Dstack?)
      && (forall x :: x in d.osImages ==>
            x == platform.osImage || (current.Some? && x in current.value.dstack.osImages))
      && (forall x :: x in d.measurements ==>
            x == platform.measurement || (current.Some? && x in current.value.dstack.measurements))
      && (forall x :: x in d.composeHashes ==>
            x == platform.composeHash || (current.Some? && x in current.value.dstack.composeHashes))
    case Nitro(_, measurements) =>
      && platform.AwsNitro? && (current.Some? ==> current.value.Nitro?)
      && (forall x :: x in measurements ==>
            x == platform.measurement || (current.Some? && x in current.value.measurements))
  }

  /** A prover is pinned only if everything else it attests is already pinned or, for a Nitro measurement,
      equals the supplied build; then it is pinned and nothing else is. */
  lemma {:induction false} ExtendedPins(current: Option<Pins>, r: Request)
    requires Extended(current, r).Some?
    ensures var pins := Extended(current, r).value;
            && Pinned(pins, r.identity) && OnlyAdds(current, pins, r.identity.platform)
            && (pins.Nitro? ==> r.built == Some(r.identity.platform.measurement))
            && (current.None? ==> NoRepeats(pins))
  {
  }

  /** When a dstack prover can be pinned: its keys come from a KMS, it is the pinned app and key or the first
      one, its TCB status is accepted, and no Nitro option was given. */
  lemma {:induction false} DstackPinnedIff(current: Option<Pins>, r: Request)
    requires r.identity.platform.DstackTdx?
    ensures var found := r.identity.platform;
            Extended(current, r).Some? <==>
              && r.built == None && !r.pinKey && found.providerName == "kms"
              && (current.None? ==> found.tcbStatus == "UpToDate")
              && (current.Some? ==>
                    && current.value.Dstack?
                    && current.value.dstack.appId == found.appId && current.value.dstack.hpkeKey == r.identity.hpkeKey
                    && current.value.dstack.keyProvider == found.provider
                    && found.tcbStatus in current.value.dstack.tcbStatuses)
  {
  }

  /** When a Nitro prover can be pinned: the supplied build measures the same, and a pinned key is its own.
      The option to pin the key pins it, and without it a pinned key stays. */
  lemma {:induction false} NitroPinnedIff(current: Option<Pins>, r: Request)
    requires r.identity.platform.AwsNitro?
    ensures Extended(current, r).Some? <==>
              && r.built == Some(r.identity.platform.measurement)
              && (current.Some? ==>
                    && current.value.Nitro?
                    && (current.value.hpkeKey == None || current.value.hpkeKey == Some(r.identity.hpkeKey)))
    ensures Extended(current, r).Some? ==>
              var pins := Extended(current, r).value;
              && pins.Nitro?
              && pins.hpkeKey == (if r.pinKey then Some(r.identity.hpkeKey)
                                  else if current.Some? then current.value.hpkeKey else None)
  {
  }

  /** `Pin::extend`: the pins are cloned, checked, and pushed to one list after the other. The result pins the
      attested prover and nothing else new, and keeps what was pinned. */
  method Extend(current: Option<Pins>, r: Request) returns (pins: Option<Pins>)
    ensures pins == Extended(current, r)
    ensures pins.Some? ==>
              && Pinned(pins.value, r.identity) && OnlyAdds(current, pins.value, r.identity.platform)
              && (pins.value.Nitro? ==> r.built == Some(r.identity.platform.measurement))
              && (current.None? ==> NoRepeats(pins.value))
    ensures pins.Some? && current.Some? ==>
              && Extends(current.value, pins.value)
              && (NoRepeats(current.value) ==> NoRepeats(pins.value))
  {
    hide Pinned, OnlyAdds, NoRepeats, Extends;
    if Extended(current, r).Some? {
      ExtendedPins(current, r);
      if current.Some? {
        ExtendedExtends(current.value, r);
      }
    }
    var found := r.identity.platform;
    if current.Some? && !SamePlatform(current.value, found) {
      return None;
    }
    match found {
      case DstackTdx(appId, providerName, provider, tcbStatus, composeHash, osImage, measurement) =>
        if r.built.Some? || r.pinKey {
          return None;
        }
        var d := NewDstack(found, r.identity.hpkeKey);
        if current.Some? {
          d := current.value.dstack;
        }
        if providerName != "kms" {
          return None;
        }
        if d.appId != appId || d.hpkeKey != r.identity.hpkeKey || d.keyProvider != provider {
          return None;
        }
        if tcbStatus !in d.tcbStatuses {
          return None;
        }
        d := d.(composeHashes := PushNew(d.composeHashes, composeHash));
        d := d.(osImages := PushNew(d.osImages, osImage));
        d := d.(measurements := PushNew(d.measurements, measurement));
        pins := Some(Dstack(d));
      case AwsNitro(measurement) =>
        if r.built != Some(measurement) {
          return None;
        }
        var n := Nitro(None, []);
        if current.Some? {
          n := current.value;
        }
        if n.hpkeKey.Some? && n.hpkeKey.value != r.identity.hpkeKey {
          return None;
        }
        if r.pinKey {
          n := n.(hpkeKey := Some(r.identity.hpkeKey));
        }
        n := n.(measurements := PushNew(n.measurements, measurement));
        pins := Some(n);
      case OtherPlatform => pins := None;
    }
  }

  class PolicyFile {
    var file: Option<Policy>

    constructor (file: Option<Policy>)
      ensures this.file == file
    {
      this.file := file;
    }

    /** `TeePolicyOptions::run`. On success the attested prover is pinned, the pinned deployment was extended
        and not replaced unless asked for, and a required GPU stays required. The file is written last, so a
        failure leaves it as it was. */
    method Run(r: Request) returns (ok: bool)
      modifies this
      ensures ok <==> Updated(old(file), r).Some?
      ensures file == if ok then Updated(old(file), r) else old(file)
      ensures ok ==>
                && file.Some? && Pinned(file.value.pins, r.identity)
                && (r.gpuRequired ==> file.value.gpuRequired)
                && (file.value.pins.Nitro? ==> r.built == Some(r.identity.platform.measurement))
      ensures ok && !r.replace && old(file).Some? ==>
                var was := old(file).value;
                && Extends(was.pins, file.value.pins)
                && OnlyAdds(Some(was.pins), file.value.pins, r.identity.platform)
                && (NoRepeats(was.pins) ==> NoRepeats(file.value.pins))
                && (was.gpuRequired ==> file.value.gpuRequired)
      ensures ok && (r.replace || old(file).None?) ==>
                NoRepeats(file.value.pins) && OnlyAdds(None, file.value.pins, r.identity.platform)
    {
      hide Extended, Pinned, OnlyAdds, Extends, NoRepeats;
      var current := if r.replace then None else file;
      var gpu := r.gpuRequired;
      if current.Some? && current.value.gpuRequired {
        gpu := true;
      }
      var before := if current.Some? then Some(current.value.pins) else None;
      var pins := Extend(before, r);
      if pins.None? {
        return false;
      }
      var policy := Policy(pins.value, gpu);
      if !r.accepted {
        return false;
      }
      file := Some(policy);
      ok := true;
    }
  }

  lemma {:induction false} ExtendsTrans(a: Pins, b: Pins, c: Pins)
    requires Extends(a, b) && Extends(b, c)
    ensures Extends(a, c)
  {
  }

  /** Over any run without `--replace`, the pinned deployment stays the same, its lists only grow and stay
      free of repeats, and a required GPU stays required. */
  lemma {:induction false} PinsOnlyGrow(policy: Policy, requests: seq<Request>)
    requires forall i :: 0 <= i < |requests| ==> !requests[i].replace
    ensures var after := After(Some(policy), requests);
            && after.Some? && Extends(policy.pins, after.value.pins)
            && (NoRepeats(policy.pins) ==> NoRepeats(after.value.pins))
            && (policy.gpuRequired ==> after.value.gpuRequired)
  {
    if |requests| > 0 {
      hide Extended, Extends, NoRepeats;
      var front, r := requests[..|requests| - 1], requests[|requests| - 1];
      PinsOnlyGrow(policy, front);
      var before := After(Some(policy), front).value;
      if Updated(Some(before), r).Some? {
        ExtendedExtends(before.pins, r);
        ExtendsTrans(policy.pins, before.pins, Extended(Some(before.pins), r).value);
      }
    } else {
      ExtendsSelf(policy.pins);
    }
  }

  lemma {:induction false} ExtendsSelf(pins: Pins)
    ensures Extends(pins, pins)
  {
  }

  /** Every Nitro measurement in the file was there at the start or equals a supplied build measurement. */
  lemma {:induction false} MeasurementsWereBuilt(file: Option<Policy>, requests: seq<Request>, m: Measurement)
    requires After(file, requests).Some? && After(file, requests).value.pins.Nitro?
    requires m in After(file, requests).value.pins.measurements
    ensures
      || (file.Some? && file.value.pins.Nitro? && m in file.value.pins.measurements)
      || exists i :: 0 <= i < |requests| && requests[i].built == Some(m)
  {
    if |requests| > 0 {
      var front, r := requests[..|requests| - 1], requests[|requests| - 1];
      var before := After(file, front);
      if before.Some? && before.value.pins.Nitro? && m in before.value.pins.measurements {
        MeasurementsWereBuilt(file, front, m);
        if exists i :: 0 <= i < |front| && front[i].built == Some(m) {
          var i :| 0 <= i < |front| && front[i].built == Some(m);
          assert requests[i].built == Some(m);
        }
      } else {
        assert requests[|requests| - 1].built == Some(m);
      }
    }
  }

  /** `--replace` is the only way to another deployment. */
  lemma {:induction false} OnlyReplaceChangesDeployment(policy: Policy, r: Request)
    requires Updated(Some(policy), r).Some? && !Extends(policy.pins, Updated(Some(policy), r).value.pins)
    ensures r.replace
  {
    if !r.replace {
      ExtendedExtends(policy.pins, r);
    }
  }
}
