/** The in-memory licence store: a dictionary of licences keyed by licence
    key. Each method is one atomic step; the lock that makes it so is not
    modelled. */
module LicenseRepository {
  import opened Failures
  import opened Text
  import opened Lists
  import opened Licenses

  /** Where over the dictionary's values: the licences stored under keys,
      in the order of keys, that satisfy p. */
  function Where(keys: seq<string>, m: map<string, LicenseRecord>, p: LicenseRecord -> bool): (r: seq<LicenseRecord>)
    requires forall k | k in keys :: k in m && m[k].licenseKey == k
    requires NoDuplicates(keys)
    ensures |r| <= |keys|
    ensures forall l | l in r :: p(l) && l.licenseKey in keys && m[l.licenseKey] == l
    ensures forall k | k in keys && p(m[k]) :: m[k] in r
    ensures NoDuplicates(r)
    decreases |keys|
  {
    if keys == [] then []
    else
      TailUnique(keys);
      var rest := Where(keys[1..], m, p);
      if p(m[keys[0]]) then
        [m[keys[0]]] + rest
      else
        rest
  }

  /** Of two elements of r, the earlier one's key comes first among keys. */
  ghost predicate InKeyOrder(keys: seq<string>, r: seq<LicenseRecord>) {
    forall i, j | 0 <= i < j < |r| :: IndexOf(keys, r[i].licenseKey) < IndexOf(keys, r[j].licenseKey)
  }

  /** Where keeps the order of the keys: of two results, the earlier one's
      key comes first among the keys. */
  lemma {:induction false} WhereKeepsOrder(keys: seq<string>, m: map<string, LicenseRecord>, p: LicenseRecord -> bool)
    requires forall k | k in keys :: k in m && m[k].licenseKey == k
    requires NoDuplicates(keys)
    ensures InKeyOrder(keys, Where(keys, m, p))
    decreases |keys|
  {
    if keys != [] {
      var t := keys[1..];
      TailUnique(keys);
      WhereKeepsOrder(t, m, p);
      var rest := Where(t, m, p);
      var r := Where(keys, m, p);
      assert InKeyOrder(t, rest);
      if p(m[keys[0]]) {
        assert r == [m[keys[0]]] + rest;
        assert r[0].licenseKey == keys[0] && r[1..] == rest;
        forall i, j | 0 <= i < j < |r| ensures IndexOf(keys, r[i].licenseKey) < IndexOf(keys, r[j].licenseKey) {
          var b := r[1..][j - 1];
          assert r[j] == b && b in rest && b.licenseKey in t;
          IndexOfTail(keys, b.licenseKey);
          if i > 0 {
            var a := r[1..][i - 1];
            assert r[i] == a && a in rest && a.licenseKey in t;
            IndexOfTail(keys, a.licenseKey);
          }
        }
      } else {
        assert r == rest;
        forall i, j | 0 <= i < j < |r| ensures IndexOf(keys, r[i].licenseKey) < IndexOf(keys, r[j].licenseKey) {
          var a, b := rest[i], rest[j];
          assert a in rest && a.licenseKey in t && b in rest && b.licenseKey in t;
          IndexOfTail(keys, a.licenseKey);
          IndexOfTail(keys, b.licenseKey);
        }
      }
    }
  }

  /** Every entry is filed under its licence's own key. */
  ghost predicate FiledUnderOwnKeys(m: map<string, LicenseRecord>) {
    forall k | k in m :: m[k].licenseKey == k
  }

  /** The store's invariant over its dictionary and enumeration order: the
      order lists each key once, and each licence is filed under its own key. */
  ghost predicate StoreInvariant(m: map<string, LicenseRecord>, order: seq<string>) {
    && NoDuplicates(order)
    && (forall k :: k in m <==> k in order)
    && FiledUnderOwnKeys(m)
  }

  /** Filing a new licence and appending its key keeps the invariant. */
  lemma InsertKeepsInvariant(m: map<string, LicenseRecord>, order: seq<string>, license: LicenseRecord)
    requires StoreInvariant(m, order) && license.licenseKey !in m
    ensures StoreInvariant(m[license.licenseKey := license], order + [license.licenseKey])
  {
    AppendFreshKeepsUnique(order, license.licenseKey);
    FilingKeepsFiled(m, license);
  }

  /** Replacing a present licence keeps the invariant and the set of keys. */
  lemma ReplaceKeepsInvariant(m: map<string, LicenseRecord>, order: seq<string>, license: LicenseRecord)
    requires StoreInvariant(m, order) && license.licenseKey in m
    ensures StoreInvariant(m[license.licenseKey := license], order)
    ensures m[license.licenseKey := license].Keys == m.Keys
  {
    FilingKeepsFiled(m, license);
  }

  /** Filing a licence under its own key keeps every entry filed so. */
  lemma FilingKeepsFiled(m: map<string, LicenseRecord>, license: LicenseRecord)
    requires FiledUnderOwnKeys(m)
    ensures FiledUnderOwnKeys(m[license.licenseKey := license])
  {
    var m' := m[license.licenseKey := license];
    forall k | k in m' ensures m'[k].licenseKey == k {
      if k != license.licenseKey {
        assert m'[k] == m[k];
      }
    }
  }

  /** InMemoryLicenseRepository: the dictionary, with its enumeration order
      kept as the sequence of keys in insertion order (entries are never
      removed, and overwriting an entry keeps its place). */
  class InMemoryLicenseRepository {
    var licenses: map<string, LicenseRecord>
    var order: seq<string>

    /** The store's invariant: each licence is filed under its own key, and
        the enumeration order lists each key once. */
    ghost predicate Valid()
      reads this
    {
      StoreInvariant(licenses, order)
    }

    constructor ()
      ensures Valid() && licenses == map[] && order == []
    {
      licenses := map[];
      order := [];
    }

    /** AddAsync: refuses a key that is already present and leaves the store
        as it was; otherwise files the licence under its key. */
    method Add(license: LicenseRecord) returns (r: Result<LicenseRecord>)
      requires Valid()
      modifies this
      ensures Valid()
      ensures r.Ok? <==> license.licenseKey !in old(licenses)
      ensures r.Ok? ==> && r.value == license
                        && licenses == old(licenses)[license.licenseKey := license]
                        && order == old(order) + [license.licenseKey]
                        && (!IsBlank(license.licenseKey) ==> GetByKey(license.licenseKey) == Some(license))
      ensures r.Err? ==> && r.error == InvalidOperation("License with key " + license.licenseKey + " already exists")
                         && licenses == old(licenses) && order == old(order)
    {
      if license.licenseKey in licenses {
        return Err(InvalidOperation("License with key " + license.licenseKey + " already exists"));
      }
      InsertKeepsInvariant(licenses, order, license);
      licenses := licenses[license.licenseKey := license];
      order := order + [license.licenseKey];
      return Ok(license);
    }

    /** GetByKeyAsync: absent for a blank key or a key not in the store. */
    function GetByKey(licenseKey: string): (r: Option<LicenseRecord>)
      reads this
      ensures r.Some? <==> !IsBlank(licenseKey) && licenseKey in licenses
      ensures r.Some? ==> r.value == licenses[licenseKey]
    {
      if IsBlank(licenseKey) then None
      else if licenseKey in licenses then Some(licenses[licenseKey])
      else None
    }

    /** GetByCustomerEmailAsync: nothing for a blank email; otherwise exactly
        the stored licences whose email equals it, ignoring case, each once. */
    function GetByCustomerEmail(customerEmail: string): (r: seq<LicenseRecord>)
      reads this
      requires Valid()
      ensures IsBlank(customerEmail) ==> r == []
      ensures forall l | l in r ::
        EqualsIgnoreCase(l.customerEmail, customerEmail) && l.licenseKey in licenses && licenses[l.licenseKey] == l
      ensures !IsBlank(customerEmail) ==>
        forall k | k in licenses && EqualsIgnoreCase(licenses[k].customerEmail, customerEmail) :: licenses[k] in r
      ensures NoDuplicates(r)
    {
      if IsBlank(customerEmail) then []
      else Where(order, licenses, (l: LicenseRecord) => EqualsIgnoreCase(l.customerEmail, customerEmail))
    }

    /** UpdateAsync: refuses a key that is not present; otherwise replaces
        that one entry. The set of keys never changes. */
    method Update(license: LicenseRecord) returns (r: Outcome)
      requires Valid()
      modifies this
      ensures Valid()
      ensures r.Pass? <==> license.licenseKey in old(licenses)
      ensures r.Pass? ==> licenses == old(licenses)[license.licenseKey := license]
      ensures r.Fail? ==> && r.error == InvalidOperation("License with key " + license.licenseKey + " not found")
                          && licenses == old(licenses)
      ensures order == old(order)
    {
      if license.licenseKey !in licenses {
        return Fail(InvalidOperation("License with key " + license.licenseKey + " not found"));
      }
      ReplaceKeepsInvariant(licenses, order, license);
      licenses := licenses[license.licenseKey := license];
      return Pass;
    }

    /** GetExpiringLicensesAsync with the clock reading passed in: refuses a
        negative threshold; otherwise exactly the active licences that have
        not expired and expire within daysThreshold days. */
    function GetExpiring(daysThreshold: int, now: int): (r: Result<seq<LicenseRecord>>)
      reads this
      requires Valid()
      ensures r.Err? <==> daysThreshold < 0
      ensures r.Err? ==> r.error == ArgumentError("Days threshold must be non-negative", "daysThreshold")
      ensures r.Ok? ==> forall l | l in r.value ::
        && l.isActive && now <= l.expirationDate <= now + daysThreshold * TicksPerDay
        && l.licenseKey in licenses && licenses[l.licenseKey] == l
      ensures r.Ok? ==> forall k | k in licenses ::
        licenses[k].isActive && now <= licenses[k].expirationDate <= now + daysThreshold * TicksPerDay ==>
        licenses[k] in r.value
      ensures r.Ok? ==> NoDuplicates(r.value)
    {
      if daysThreshold < 0 then
        Err(ArgumentError("Days threshold must be non-negative", "daysThreshold"))
      else
        var thresholdDate := now + daysThreshold * TicksPerDay;
        Ok(Where(order, licenses, (l: LicenseRecord) => l.isActive && l.expirationDate <= thresholdDate && !l.IsExpired(now)))
    }

    /** ExistsAsync: false for a blank key, otherwise whether it is present;
        so it agrees with GetByKey. */
    function Exists(licenseKey: string): (r: bool)
      reads this
      ensures r <==> !IsBlank(licenseKey) && licenseKey in licenses
      ensures r <==> GetByKey(licenseKey).Some?
    {
      if IsBlank(licenseKey) then false else licenseKey in licenses
    }

    /** Every stored licence with a non-blank email is found again by it. */
    lemma FoundByOwnEmail(k: string)
      requires Valid()
      requires k in licenses && !IsBlank(licenses[k].customerEmail)
      ensures licenses[k] in GetByCustomerEmail(licenses[k].customerEmail)
    {
      var e := licenses[k].customerEmail;
      assert EqualsIgnoreCase(e, e);
    }
  }
}
