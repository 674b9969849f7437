/** The licence aggregate: construction checks, the activation decision and
    the roster of machines that hold an activation. */
module Licenses {
  import opened Failures
  import opened Text
  import opened Lists
  import opened Email
  import opened LicenseKeys

  /** DateTime ticks (100 ns each) per day: AddDays(d) adds d * TicksPerDay. */
  const TicksPerDay: int := 864_000_000_000

  /** A licence's state as a value: what the store holds and what queries
      hand out. Timestamps are DateTime ticks. */
  datatype LicenseRecord = LicenseRecord(
    licenseKey: string,
    productName: string,
    customerEmail: string,
    createdDate: int,
    expirationDate: int,
    maxActivations: int,
    isActive: bool,
    activeMachineIds: seq<string>)
  {
    /** CurrentActivations: the roster's length, zero exactly when no
        machine holds an activation. */
    function CurrentActivations(): (n: nat)
      ensures n == 0 <==> activeMachineIds == []
    {
      |activeMachineIds|
    }

    /** IsExpired, with the clock reading passed in as now. */
    predicate IsExpired(now: int) {
      now > expirationDate
    }

    /** CanActivate: revoked or expired licences refuse; a machine already
        on the roster is accepted again; otherwise a free slot is needed. */
    predicate CanActivate(machineId: string, now: int)
      ensures CanActivate(machineId, now) <==>
        isActive && !IsExpired(now) && (machineId in activeMachineIds || CurrentActivations() < maxActivations)
    {
      if !isActive then false
      else if IsExpired(now) then false
      else if machineId in activeMachineIds then true
      else if CurrentActivations() >= maxActivations then false
      else true
    }

    /** What every licence satisfies from its construction on: the fields
        passed the constructor's checks, the roster fits within the ceiling
        and lists each (non-blank) machine once, and a revoked licence has
        an empty roster. */
    ghost predicate Invariant() {
      && IsKeyFormat(licenseKey)
      && !IsBlank(productName)
      && IsValidEmail(customerEmail)
      && createdDate < expirationDate
      && 0 < maxActivations
      && |activeMachineIds| <= maxActivations
      && NoDuplicates(activeMachineIds)
      && (forall i | 0 <= i < |activeMachineIds| :: !IsBlank(activeMachineIds[i]))
      && (!isActive ==> activeMachineIds == [])
    }

    /** The outcome of Activate(machineId): an argument error for a blank
        id, checked first, then a state error when CanActivate refuses;
        otherwise the machine is on the roster, added at the end when new. */
    function Activated(machineId: string, now: int): (r: Result<LicenseRecord>)
      ensures r.Ok? <==> !IsBlank(machineId) && CanActivate(machineId, now)
      ensures r.Err? && r.error.ArgumentError? <==> IsBlank(machineId)
      ensures r.Ok? ==> machineId in r.value.activeMachineIds
      ensures r.Ok? ==> r.value.(activeMachineIds := activeMachineIds) == this
      ensures r.Ok? && machineId in activeMachineIds ==> r.value == this
      ensures r.Ok? && machineId !in activeMachineIds ==> r.value.activeMachineIds == activeMachineIds + [machineId]
    {
      if IsBlank(machineId) then
        Err(ArgumentError("Machine ID cannot be empty", "machineId"))
      else if !CanActivate(machineId, now) then
        Err(InvalidOperation("Cannot activate license on machine " + machineId))
      else if machineId in activeMachineIds then
        Ok(this)
      else
        Ok(this.(activeMachineIds := activeMachineIds + [machineId]))
    }

    /** The outcome of Deactivate(machineId): a state error unless the
        machine is on the roster; otherwise its entry is removed. */
    function Deactivated(machineId: string): (r: Result<LicenseRecord>)
      ensures r.Ok? <==> machineId in activeMachineIds
      ensures r.Err? ==> r.error.InvalidOperation?
      ensures r.Ok? ==> |r.value.activeMachineIds| == |activeMachineIds| - 1
    {
      if machineId !in activeMachineIds then
        Err(InvalidOperation("License is not activated on machine " + machineId))
      else
        Ok(this.(activeMachineIds := RemoveFirst(activeMachineIds, machineId)))
    }

    /** The state after Revoke: inactive, with an empty roster. */
    function Revoked(): (r: LicenseRecord)
      ensures !r.isActive && r.activeMachineIds == []
      ensures r.(isActive := isActive, activeMachineIds := activeMachineIds) == this
    {
      this.(isActive := false, activeMachineIds := [])
    }
  }

  /** The constructor's argument checks, in the order it makes them; the
      first that fails raises an argument error naming its parameter. */
  function CheckArguments(productName: string, customerEmail: string, validityDays: int, maxActivations: int): (r: Outcome)
    ensures r == Pass <==>
      !IsBlank(productName) && IsValidEmail(customerEmail) && validityDays > 0 && maxActivations > 0
    ensures r.Fail? ==> r.error.ArgumentError?
    ensures r.Fail? && r.error.paramName == "productName" <==> IsBlank(productName)
    ensures r.Fail? && r.error.paramName == "customerEmail" <==>
      !IsBlank(productName) && !IsValidEmail(customerEmail)
    ensures r.Fail? && r.error.paramName == "validityDays" <==>
      !IsBlank(productName) && IsValidEmail(customerEmail) && validityDays <= 0
    ensures r.Fail? && r.error.paramName == "maxActivations" <==>
      !IsBlank(productName) && IsValidEmail(customerEmail) && validityDays > 0 && maxActivations <= 0
    ensures r.Fail? && r.error.description == "Product name cannot be empty" <==> IsBlank(productName)
    ensures r.Fail? && r.error.description == "Customer email cannot be empty" <==>
      !IsBlank(productName) && IsBlank(customerEmail)
    ensures r.Fail? && r.error.description == "Invalid email format" <==>
      !IsBlank(productName) && !IsBlank(customerEmail) && !IsValidEmail(customerEmail)
    ensures r.Fail? && r.error.description == "Validity days must be positive" <==>
      !IsBlank(productName) && IsValidEmail(customerEmail) && validityDays <= 0
    ensures r.Fail? && r.error.description == "Max activations must be positive" <==>
      !IsBlank(productName) && IsValidEmail(customerEmail) && validityDays > 0 && maxActivations <= 0
  {
    if IsBlank(productName) then
      Fail(ArgumentError("Product name cannot be empty", "productName"))
    else if IsBlank(customerEmail) then
      Fail(ArgumentError("Customer email cannot be empty", "customerEmail"))
    else if !IsValidEmail(customerEmail) then
      Fail(ArgumentError("Invalid email format", "customerEmail"))
    else if validityDays <= 0 then
      Fail(ArgumentError("Validity days must be positive", "validityDays"))
    else if maxActivations <= 0 then
      Fail(ArgumentError("Max activations must be positive", "maxActivations"))
    else
      Pass
  }

  /** The licence the constructor builds, with the GUID and the clock reading
      supplied: a failed check is its error; otherwise an active licence with
      an empty roster that expires validityDays days after its creation. */
  function NewLicense(productName: string, customerEmail: string, validityDays: int, maxActivations: int,
                      guidN: string, now: int): (r: Result<LicenseRecord>)
    requires IsGuidN(guidN)
    ensures r.Err? <==> CheckArguments(productName, customerEmail, validityDays, maxActivations).Fail?
    ensures r.Err? ==> r.error == CheckArguments(productName, customerEmail, validityDays, maxActivations).error
    ensures r.Ok? ==>
      && r.value.Invariant()
      && r.value.isActive
      && r.value.activeMachineIds == []
      && IsKeyFormat(r.value.licenseKey)
      && !r.value.IsExpired(now)
      && r.value.expirationDate - r.value.createdDate == validityDays * TicksPerDay
    ensures r.Ok? ==>
      && r.value.licenseKey == FormatKey(guidN)
      && r.value.productName == productName
      && r.value.customerEmail == customerEmail
      && r.value.createdDate == now
      && r.value.maxActivations == maxActivations
  {
    var c := CheckArguments(productName, customerEmail, validityDays, maxActivations);
    if c.Fail? then
      Err(c.error)
    else
      var l := LicenseRecord(FormatKey(guidN), productName, customerEmail, now,
                             now + validityDays * TicksPerDay, maxActivations, true, []);
      assert validityDays * TicksPerDay >= TicksPerDay;
      Ok(l)
  }

  /** A successful activation keeps the invariant: the machine is on the
      roster, the roster still fits and lists no machine twice. */
  lemma ActivatePreservesInvariant(l: LicenseRecord, machineId: string, now: int)
    requires l.Invariant()
    ensures var r := l.Activated(machineId, now);
      r.Ok? ==> r.value.Invariant() && r.value.isActive && machineId in r.value.activeMachineIds
  {
    var r := l.Activated(machineId, now);
    if r.Ok? && machineId !in l.activeMachineIds {
      var s := r.value.activeMachineIds;
      assert s == l.activeMachineIds + [machineId];
      forall i, j | 0 <= i < j < |s| ensures s[i] != s[j] {
        if j == |s| - 1 {
          assert s[i] == l.activeMachineIds[i];
        }
      }
    }
  }

  /** Activating a machine that already holds an activation succeeds and
      changes nothing. */
  lemma ActivateIdempotent(l: LicenseRecord, machineId: string, now: int)
    requires l.Activated(machineId, now).Ok?
    ensures var l' := l.Activated(machineId, now).value;
      l'.Activated(machineId, now) == Ok(l')
  {
  }

  /** A successful deactivation keeps the invariant and removes exactly the
      machine: every other machine keeps its activation. */
  lemma DeactivatePreservesInvariant(l: LicenseRecord, machineId: string)
    requires l.Invariant()
    ensures var r := l.Deactivated(machineId);
      r.Ok? ==>
        && r.value.Invariant()
        && machineId !in r.value.activeMachineIds
        && (forall m | m != machineId :: m in r.value.activeMachineIds <==> m in l.activeMachineIds)
        && r.value.(activeMachineIds := l.activeMachineIds) == l
  {
    var r := l.Deactivated(machineId);
    if r.Ok? {
      var s := l.activeMachineIds;
      RemoveFirstFromUnique(s, machineId);
      var t := r.value.activeMachineIds;
      forall i | 0 <= i < |t| ensures !IsBlank(t[i]) {
        assert t[i] in s;
      }
    }
  }

  /** Deactivating a machine that was just activated for the first time
      restores the licence exactly. */
  lemma DeactivateUndoesActivate(l: LicenseRecord, machineId: string, now: int)
    requires machineId !in l.activeMachineIds
    requires l.Activated(machineId, now).Ok?
    ensures l.Activated(machineId, now).value.Deactivated(machineId) == Ok(l)
  {
    RemoveFirstOfAppended(l.activeMachineIds, machineId);
  }

  /** Revocation is terminal: afterwards every activation and every
      deactivation fails, and revoking again changes nothing. */
  lemma RevokeIsTerminal(l: LicenseRecord, machineId: string, now: int)
    requires l.Invariant()
    ensures l.Revoked().Invariant()
    ensures l.Revoked().Activated(machineId, now).Err?
    ensures l.Revoked().Deactivated(machineId).Err?
    ensures l.Revoked().Revoked() == l.Revoked()
  {
  }

  /** CurrentActivations counts machines: for a licence the entity built it
      is the number of distinct machines that hold an activation. */
  lemma ActivationsCountMachines(l: LicenseRecord)
    requires l.Invariant()
    ensures l.CurrentActivations() == |set m | m in l.activeMachineIds|
  {
    DistinctCount(l.activeMachineIds);
  }

  /** Expiry is permanent: a licence expired at now is expired at every
      later instant, where no machine can be activated on it. */
  lemma ExpiryIsPermanent(l: LicenseRecord, machineId: string, now: int, later: int)
    requires l.IsExpired(now) && now <= later
    ensures l.IsExpired(later)
    ensures !l.CanActivate(machineId, later) && l.Activated(machineId, later).Err?
  {
  }

  /** Activate attempted for each machine id in turn, a failure leaving the
      licence as it was; also counts the attempts that succeeded. */
  function ActivateEach(l: LicenseRecord, machineIds: seq<string>, now: int): (r: (LicenseRecord, nat))
    decreases |machineIds|
  {
    if machineIds == [] then (l, 0)
    else
      var r := l.Activated(machineIds[0], now);
      var next := if r.Ok? then r.value else l;
      var (f, n) := ActivateEach(next, machineIds[1..], now);
      (f, n + if r.Ok? then 1 else 0)
  }

  /** However many activations are attempted, in whatever order, the
      invariant holds afterwards: never more machines than the ceiling. */
  lemma {:induction false} ActivateEachPreservesInvariant(l: LicenseRecord, machineIds: seq<string>, now: int)
    requires l.Invariant()
    ensures ActivateEach(l, machineIds, now).0.Invariant()
    ensures ActivateEach(l, machineIds, now).0.CurrentActivations() <= l.maxActivations
    ensures ActivateEach(l, machineIds, now).0.maxActivations == l.maxActivations
    decreases |machineIds|
  {
    if machineIds != [] {
      ActivatePreservesInvariant(l, machineIds[0], now);
      var r := l.Activated(machineIds[0], now);
      var next := if r.Ok? then r.value else l;
      ActivateEachPreservesInvariant(next, machineIds[1..], now);
    }
  }

  /** Attempts for n distinct new machines on an active, unexpired licence
      with k free slots: exactly min(n, k) succeed, the first ones, in order. */
  lemma {:induction false} ActivationLimit(l: LicenseRecord, machineIds: seq<string>, now: int)
    requires l.isActive && !l.IsExpired(now) && l.CurrentActivations() <= l.maxActivations
    requires NoDuplicates(machineIds)
    requires forall i | 0 <= i < |machineIds| :: !IsBlank(machineIds[i]) && machineIds[i] !in l.activeMachineIds
    ensures var free := l.maxActivations - l.CurrentActivations();
      var k := if |machineIds| < free then |machineIds| else free;
      && ActivateEach(l, machineIds, now).1 == k
      && ActivateEach(l, machineIds, now).0.activeMachineIds == l.activeMachineIds + machineIds[..k]
    decreases |machineIds|
  {
    if machineIds != [] {
      var m, rest := machineIds[0], machineIds[1..];
      var free := l.maxActivations - l.CurrentActivations();
      var k := if |machineIds| < free then |machineIds| else free;
      FreshTail(l.activeMachineIds, machineIds);
      if l.CurrentActivations() < l.maxActivations {
        var next := l.(activeMachineIds := l.activeMachineIds + [m]);
        assert l.Activated(m, now) == Ok(next);
        assert ActivateEach(l, machineIds, now) ==
          (ActivateEach(next, rest, now).0, ActivateEach(next, rest, now).1 + 1);
        ActivationLimit(next, rest, now);
        assert machineIds[..k] == [m] + rest[..k - 1];
      } else {
        assert l.Activated(m, now).Err?;
        assert ActivateEach(l, machineIds, now) == ActivateEach(l, rest, now);
        ActivationLimit(l, rest, now);
      }
    }
  }

  /** The tail of a duplicate-free list of new, non-blank machine ids is
      again such a list, also with respect to the roster after its head
      has been added. */
  lemma FreshTail(roster: seq<string>, machineIds: seq<string>)
    requires machineIds != []
    requires NoDuplicates(machineIds)
    requires forall i | 0 <= i < |machineIds| :: !IsBlank(machineIds[i]) && machineIds[i] !in roster
    ensures NoDuplicates(machineIds[1..])
    ensures forall i | 0 <= i < |machineIds| - 1 ::
      !IsBlank(machineIds[1..][i]) && machineIds[1..][i] !in roster + [machineIds[0]]
  {
    var rest := machineIds[1..];
    forall i | 0 <= i < |rest| ensures !IsBlank(rest[i]) && rest[i] !in roster + [machineIds[0]] {
      assert rest[i] == machineIds[i + 1];
    }
    forall i, j | 0 <= i < j < |rest| ensures rest[i] != rest[j] {
      assert rest[i] == machineIds[i + 1] && rest[j] == machineIds[j + 1];
    }
  }

  /** The License entity: identity and terms fixed at construction, the
      IsActive flag and the roster changed in place by its methods. */
  class License {
    const licenseKey: string
    const productName: string
    const customerEmail: string
    const createdDate: int
    const expirationDate: int
    const maxActivations: int
    var isActive: bool
    var activeMachineIds: seq<string>

    /** The licence's current state as a value. */
    function Snapshot(): (s: LicenseRecord)
      reads this
    {
      LicenseRecord(licenseKey, productName, customerEmail, createdDate, expirationDate,
                    maxActivations, isActive, activeMachineIds)
    }

    ghost predicate Valid()
      reads this
    {
      Snapshot().Invariant()
    }

    /** The constructor once its argument checks have passed: the key from
        the GUID, the creation time from the clock, active, no machines. */
    constructor Init(productName: string, customerEmail: string, validityDays: int, maxActivations: int,
                     guidN: string, now: int)
      requires CheckArguments(productName, customerEmail, validityDays, maxActivations) == Pass
      requires IsGuidN(guidN)
      ensures Valid()
      ensures NewLicense(productName, customerEmail, validityDays, maxActivations, guidN, now) == Ok(Snapshot())
    {
      this.licenseKey := FormatKey(guidN);
      this.productName := productName;
      this.customerEmail := customerEmail;
      this.createdDate := now;
      this.expirationDate := now + validityDays * TicksPerDay;
      this.maxActivations := maxActivations;
      this.isActive := true;
      this.activeMachineIds := [];
      new;
      assert Snapshot() == NewLicense(productName, customerEmail, validityDays, maxActivations, guidN, now).value;
    }

    /** new License(productName, customerEmail, validityDays, maxActivations):
        the argument checks, then construction. */
    static method Create(productName: string, customerEmail: string, validityDays: int, maxActivations: int,
                         guidN: string, now: int) returns (r: Result<License>)
      requires IsGuidN(guidN)
      ensures r.Err? ==> NewLicense(productName, customerEmail, validityDays, maxActivations, guidN, now) == Err(r.error)
      ensures r.Ok? ==> fresh(r.value) && r.value.Valid()
      ensures r.Ok? ==> NewLicense(productName, customerEmail, validityDays, maxActivations, guidN, now) == Ok(r.value.Snapshot())
    {
      var c := CheckArguments(productName, customerEmail, validityDays, maxActivations);
      if c.Fail? {
        return Err(c.error);
      }
      var l := new License.Init(productName, customerEmail, validityDays, maxActivations, guidN, now);
      return Ok(l);
    }

    /** Activate(machineId): on success the machine holds an activation; on
        failure nothing changes. The invariant is kept either way. */
    method Activate(machineId: string, now: int) returns (r: Outcome)
      requires Valid()
      modifies this
      ensures Valid()
      ensures r == old(Snapshot()).Activated(machineId, now).ToOutcome()
      ensures r.Pass? ==> Snapshot() == old(Snapshot()).Activated(machineId, now).value
      ensures r.Fail? ==> Snapshot() == old(Snapshot())
    {
      if IsBlank(machineId) {
        return Fail(ArgumentError("Machine ID cannot be empty", "machineId"));
      }
      if !Snapshot().CanActivate(machineId, now) {
        return Fail(InvalidOperation("Cannot activate license on machine " + machineId));
      }
      if machineId !in activeMachineIds {
        activeMachineIds := activeMachineIds + [machineId];
      }
      ActivatePreservesInvariant(old(Snapshot()), machineId, now);
      return Pass;
    }

    /** Deactivate(machineId): removes the machine's entry, or fails and
        changes nothing when the machine holds no activation. */
    method Deactivate(machineId: string) returns (r: Outcome)
      requires Valid()
      modifies this
      ensures Valid()
      ensures r == old(Snapshot()).Deactivated(machineId).ToOutcome()
      ensures r.Pass? ==> Snapshot() == old(Snapshot()).Deactivated(machineId).value
      ensures r.Fail? ==> Snapshot() == old(Snapshot())
    {
      if machineId !in activeMachineIds {
        return Fail(InvalidOperation("License is not activated on machine " + machineId));
      }
      activeMachineIds := RemoveFirst(activeMachineIds, machineId);
      DeactivatePreservesInvariant(old(Snapshot()), machineId);
      return Pass;
    }

    /** Revoke: inactive for good, every activation withdrawn. */
    method Revoke()
      requires Valid()
      modifies this
      ensures Valid()
      ensures Snapshot() == old(Snapshot()).Revoked()
    {
      isActive := false;
      activeMachineIds := [];
    }
  }
}
