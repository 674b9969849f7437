/** The licence service: creating and validating licences, and the two
    reporting queries that shape stored licences into records for callers. */
module LicenseServices {
  import opened Failures
  import opened Text
  import opened LicenseKeys
  import opened Licenses
  import opened LicenseRepository

  /** The message for any creation failure that is not an argument error. */
  const GenericCreateError: string := "An error occurred while creating the license"

  const NotFoundReason: string := "License key not found"
  const RevokedReason: string := "License has been revoked"
  const ExpiredReason: string := "License has expired"

  /** CreateLicenseResult; absent fields are the C# nulls. */
  datatype CreateLicenseResult = CreateLicenseResult(
    success: bool,
    licenseKey: Option<string>,
    expirationDate: Option<int>,
    errorMessage: Option<string>)

  /** LicenseValidationResult; the licence is the stored one when valid. */
  datatype LicenseValidationResult = LicenseValidationResult(
    isValid: bool,
    reason: Option<string>,
    license: Option<LicenseRecord>)

  /** LicenseDto; a field a query does not set keeps its C# default (null,
      false, 0, and DateTime.MinValue, which is tick 0). */
  datatype LicenseDto = LicenseDto(
    licenseKey: string,
    productName: string,
    customerEmail: Option<string>,
    createdDate: int,
    expirationDate: int,
    isActive: bool,
    isExpired: bool,
    activationsUsed: int,
    maxActivations: int,
    daysUntilExpiration: Option<int>)

  /** The two catch clauses of CreateLicenseAsync: an argument error reports
      its own message, any other failure the generic one. */
  function CreateFailure(e: Error): (r: CreateLicenseResult)
    ensures !r.success && r.licenseKey == None && r.expirationDate == None
    ensures e.ArgumentError? ==> r.errorMessage == Some(e.Message())
    ensures e.InvalidOperation? ==> r.errorMessage == Some(GenericCreateError)
  {
    match e
    case ArgumentError(_, _) => CreateLicenseResult(false, None, None, Some(e.Message()))
    case InvalidOperation(_) => CreateLicenseResult(false, None, None, Some(GenericCreateError))
  }

  /** The record GetCustomerLicensesAsync makes of one licence: no email and
      no days left, the expiry at now, and the activations in use, which
      for a licence the entity built fit the ceiling. */
  function CustomerDto(l: LicenseRecord, now: int): (d: LicenseDto)
    ensures d.customerEmail == None && d.daysUntilExpiration == None
    ensures && d.licenseKey == l.licenseKey && d.productName == l.productName
            && d.createdDate == l.createdDate && d.expirationDate == l.expirationDate
            && d.isActive == l.isActive && d.maxActivations == l.maxActivations
    ensures d.activationsUsed == l.CurrentActivations()
    ensures d.isExpired <==> l.IsExpired(now)
    ensures l.Invariant() ==> 0 <= d.activationsUsed <= d.maxActivations
  {
    LicenseDto(l.licenseKey, l.productName, None, l.createdDate, l.expirationDate,
               l.isActive, l.IsExpired(now), l.CurrentActivations(), l.maxActivations, None)
  }

  /** (int)(to - from).TotalDays in exact arithmetic: the whole days between
      two tick counts, truncated toward zero. */
  function WholeDays(from: int, to: int): (d: int)
    ensures from <= to ==> 0 <= d
    ensures to <= from ==> d <= 0
  {
    if from <= to then (to - from) / TicksPerDay else -((from - to) / TicksPerDay)
  }

  /** The record GetExpiringLicensesAsync makes of one licence: with the
      email and the whole days left, which are never negative before expiry,
      and the C# defaults in the fields it does not set. */
  function ExpiringDto(l: LicenseRecord, now: int): (d: LicenseDto)
    ensures d.customerEmail == Some(l.customerEmail) && d.daysUntilExpiration == Some(WholeDays(now, l.expirationDate))
    ensures d.licenseKey == l.licenseKey && d.productName == l.productName && d.expirationDate == l.expirationDate
    ensures now <= l.expirationDate ==> 0 <= d.daysUntilExpiration.value
    ensures l.expirationDate < now ==> d.daysUntilExpiration.value <= 0
    ensures d.createdDate == 0 && !d.isActive && !d.isExpired && d.activationsUsed == 0 && d.maxActivations == 0
  {
    LicenseDto(l.licenseKey, l.productName, Some(l.customerEmail), 0, l.expirationDate,
               false, false, 0, 0, Some(WholeDays(now, l.expirationDate)))
  }

  /** The foreach loop of GetCustomerLicensesAsync: one record per licence,
      appended in order. */
  method CustomerDtos(licenses: seq<LicenseRecord>, now: int) returns (dtos: seq<LicenseDto>)
    ensures |dtos| == |licenses|
    ensures forall j | 0 <= j < |licenses| :: dtos[j] == CustomerDto(licenses[j], now)
  {
    dtos := [];
    for i := 0 to |licenses|
      invariant |dtos| == i
      invariant forall j | 0 <= j < i :: dtos[j] == CustomerDto(licenses[j], now)
    {
      dtos := dtos + [CustomerDto(licenses[i], now)];
    }
  }

  /** The foreach loop of GetExpiringLicensesAsync: one record per licence,
      appended in order. */
  method ExpiringDtos(licenses: seq<LicenseRecord>, now: int) returns (dtos: seq<LicenseDto>)
    ensures |dtos| == |licenses|
    ensures forall j | 0 <= j < |licenses| :: dtos[j] == ExpiringDto(licenses[j], now)
  {
    dtos := [];
    for i := 0 to |licenses|
      invariant |dtos| == i
      invariant forall j | 0 <= j < i :: dtos[j] == ExpiringDto(licenses[j], now)
    {
      dtos := dtos + [ExpiringDto(licenses[i], now)];
    }
  }

  /** A licence that expires within n days of now has at most n whole days left. */
  lemma WholeDaysWithin(now: int, expirationDate: int, n: int)
    requires 0 <= n && now <= expirationDate <= now + n * TicksPerDay
    ensures 0 <= WholeDays(now, expirationDate) <= n
  {
    var t := expirationDate - now;
    var d := t / TicksPerDay;
    assert t == d * TicksPerDay + t % TicksPerDay;
  }

  /** WholeDays counts the days the interval spans, rounding toward zero. */
  lemma WholeDaysBounds(from: int, to: int)
    ensures var d := WholeDays(from, to);
      && (from <= to ==> 0 <= d && d * TicksPerDay <= to - from < (d + 1) * TicksPerDay)
      && (to < from ==> d <= 0 && (-d) * TicksPerDay <= from - to < (1 - d) * TicksPerDay)
  {
  }

  /** Every stored licence is one the entity could have reached. */
  ghost predicate HoldsLicences(m: map<string, LicenseRecord>) {
    forall k | k in m :: m[k].Invariant()
  }

  /** Filing a reachable licence keeps every stored licence reachable. */
  lemma FilingKeepsLicences(m: map<string, LicenseRecord>, license: LicenseRecord)
    requires HoldsLicences(m) && license.Invariant()
    ensures HoldsLicences(m[license.licenseKey := license])
  {
    var m' := m[license.licenseKey := license];
    forall k | k in m' ensures m'[k].Invariant() {
      if k != license.licenseKey {
        assert m'[k] == m[k];
      }
    }
  }

  /** LicenseService over the in-memory store. The security-event store it
      also receives is never used. */
  class LicenseService {
    const repository: InMemoryLicenseRepository

    constructor (repository: InMemoryLicenseRepository)
      ensures this.repository == repository
      ensures repository.Valid() && HoldsLicences(repository.licenses) ==> Valid()
    {
      this.repository := repository;
    }

    /** The service's invariant: the store's own, and every licence in it
        came from the entity's constructor and operations. */
    ghost predicate Valid()
      reads this, repository
    {
      repository.Valid() && HoldsLicences(repository.licenses)
    }

    /** CreateLicenseAsync with the GUID and the clock reading supplied: a
        construction failure becomes a failed result with its message and no
        insertion; a duplicate key becomes the generic failure; otherwise the
        licence is stored and its key and expiration are returned. */
    method CreateLicense(productName: string, customerEmail: string, validityDays: int, maxActivations: int,
                         guidN: string, now: int) returns (r: CreateLicenseResult)
      requires Valid() && IsGuidN(guidN)
      modifies repository
      ensures Valid()
      ensures var n := NewLicense(productName, customerEmail, validityDays, maxActivations, guidN, now);
        n.Err? ==>
          && r == CreateLicenseResult(false, None, None, Some(n.error.Message()))
          && repository.licenses == old(repository.licenses) && repository.order == old(repository.order)
      ensures var n := NewLicense(productName, customerEmail, validityDays, maxActivations, guidN, now);
        n.Ok? && n.value.licenseKey in old(repository.licenses) ==>
          && r == CreateLicenseResult(false, None, None, Some(GenericCreateError))
          && repository.licenses == old(repository.licenses) && repository.order == old(repository.order)
      ensures var n := NewLicense(productName, customerEmail, validityDays, maxActivations, guidN, now);
        n.Ok? && n.value.licenseKey !in old(repository.licenses) ==>
          && r == CreateLicenseResult(true, Some(n.value.licenseKey), Some(n.value.expirationDate), None)
          && repository.licenses == old(repository.licenses)[n.value.licenseKey := n.value]
          && repository.order == old(repository.order) + [n.value.licenseKey]
      ensures r.success ==>
        && r.licenseKey.Some? && IsKeyFormat(r.licenseKey.value)
        && repository.GetByKey(r.licenseKey.value).Some?
        && var l := repository.GetByKey(r.licenseKey.value).value;
           && l.productName == productName && l.maxActivations == maxActivations
           && l.CurrentActivations() == 0
           && ValidateLicense(r.licenseKey.value, now) == LicenseValidationResult(true, None, Some(l))
    {
      ghost var n := NewLicense(productName, customerEmail, validityDays, maxActivations, guidN, now);
      var created := License.Create(productName, customerEmail, validityDays, maxActivations, guidN, now);
      if created.Err? {
        assert n == Err(created.error);
        return CreateFailure(created.error);
      }
      var license := created.value;
      var snapshot := license.Snapshot();
      assert n == Ok(snapshot);
      FilingKeepsLicences(repository.licenses, snapshot);
      var added := repository.Add(snapshot);
      if added.Err? {
        return CreateFailure(added.error);
      }
      return CreateLicenseResult(true, Some(snapshot.licenseKey), Some(snapshot.expirationDate), None);
    }

    /** ValidateLicenseAsync: the first failing check gives the reason, in
        the order not found, revoked, expired; a licence that passes all
        three is valid and is returned. Nothing is changed. */
    function ValidateLicense(licenseKey: string, now: int): (r: LicenseValidationResult)
      reads repository
      ensures r.isValid <==>
        var l := repository.GetByKey(licenseKey); l.Some? && l.value.isActive && !l.value.IsExpired(now)
      ensures r.isValid ==> r.license == repository.GetByKey(licenseKey) && r.reason == None
      ensures !r.isValid ==> r.license == None && r.reason.Some?
      ensures r.reason == Some(NotFoundReason) <==> !repository.Exists(licenseKey)
      ensures r.reason == Some(RevokedReason) <==>
        repository.Exists(licenseKey) && !repository.licenses[licenseKey].isActive
      ensures r.reason == Some(ExpiredReason) <==>
        && repository.Exists(licenseKey) && repository.licenses[licenseKey].isActive
        && repository.licenses[licenseKey].IsExpired(now)
    {
      var license := repository.GetByKey(licenseKey);
      if license.None? then
        LicenseValidationResult(false, Some(NotFoundReason), None)
      else if !license.value.isActive then
        LicenseValidationResult(false, Some(RevokedReason), None)
      else if license.value.IsExpired(now) then
        LicenseValidationResult(false, Some(ExpiredReason), None)
      else
        LicenseValidationResult(true, None, license)
    }

    /** The service's verdict agrees with the entity's activation rule: a
        licence that does not validate accepts no machine, and one that does
        accepts every machine already on its roster. */
    lemma ValidationAgreesWithCanActivate(licenseKey: string, machineId: string, now: int)
      requires Valid()
      requires repository.Exists(licenseKey)
      ensures var l := repository.licenses[licenseKey];
        && (l.CanActivate(machineId, now) ==> ValidateLicense(licenseKey, now).isValid)
        && (ValidateLicense(licenseKey, now).isValid && machineId in l.activeMachineIds ==> l.CanActivate(machineId, now))
    {
    }

    /** GetCustomerLicensesAsync: one record per licence of the email query,
        in the same order, each reporting the activations in use and whether
        the licence has expired at now. */
    method GetCustomerLicenses(customerEmail: string, now: int) returns (dtos: seq<LicenseDto>)
      requires Valid()
      ensures var ls := repository.GetByCustomerEmail(customerEmail);
        && |dtos| == |ls|
        && forall i | 0 <= i < |ls| :: dtos[i] == CustomerDto(ls[i], now)
      ensures forall d | d in dtos :: 0 <= d.activationsUsed <= d.maxActivations
    {
      var licenses := repository.GetByCustomerEmail(customerEmail);
      dtos := CustomerDtos(licenses, now);
      forall d | d in dtos ensures 0 <= d.activationsUsed <= d.maxActivations {
        var j :| 0 <= j < |dtos| && dtos[j] == d;
        assert repository.licenses[licenses[j].licenseKey] == licenses[j];
      }
    }

    /** GetExpiringLicensesAsync: the store's refusal of a negative threshold
        propagates; otherwise one record per expiring licence, in the same
        order, each with the whole days it has left. */
    method GetExpiringLicenses(now: int, daysThreshold: int := 30) returns (r: Result<seq<LicenseDto>>)
      requires Valid()
      ensures r.Err? <==> daysThreshold < 0
      ensures r.Err? ==> r.error == ArgumentError("Days threshold must be non-negative", "daysThreshold")
      ensures r.Ok? ==> var ls := repository.GetExpiring(daysThreshold, now).value;
        && |r.value| == |ls|
        && forall i | 0 <= i < |ls| :: r.value[i] == ExpiringDto(ls[i], now)
      ensures r.Ok? ==> forall d | d in r.value ::
        d.daysUntilExpiration.Some? && 0 <= d.daysUntilExpiration.value <= daysThreshold
    {
      var expiring := repository.GetExpiring(daysThreshold, now);
      if expiring.Err? {
        return Err(expiring.error);
      }
      var licenses := expiring.value;
      var dtos := ExpiringDtos(licenses, now);
      forall d | d in dtos ensures d.daysUntilExpiration.Some? && 0 <= d.daysUntilExpiration.value <= daysThreshold {
        var j :| 0 <= j < |dtos| && dtos[j] == d;
        WholeDaysWithin(now, licenses[j].expirationDate, daysThreshold);
      }
      return Ok(dtos);
    }
  }
}
