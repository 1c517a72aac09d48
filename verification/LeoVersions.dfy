/** Version lists: what create, update and cancel keep about them, and what the scan then finds. */
module LeoVersions {
  import opened Words
  import opened LeoState

  /**
    All versions but the last are closed: they ended at a positive time that is not in the future, in
    the order of the list. A paying version after the first starts no earlier than all before it ended.
   */
  ghost predicate InOrder(versions: seq<Version>, now: nat)
  {
    && (forall i :: 0 <= i < |versions| - 1 ==> 0 < versions[i].ending <= now)
    && (forall i, j :: 0 <= i <= j < |versions| - 1 ==> versions[i].ending <= versions[j].ending)
    && (forall i, j :: 0 <= i < j < |versions| && versions[j].perSecond != 0 ==>
          versions[i].ending <= versions[j].starting)
  }

  lemma SupersedeInOrder(versions: seq<Version>, before: nat, now: U64, v: Version)
    requires versions != [] && InOrder(versions, before)
    requires before <= now && 0 < now
    requires v.perSecond != 0 ==> now <= v.starting
    ensures InOrder(Supersede(versions, now, v), now)
  {
    var after := Supersede(versions, now, v);
    var last := |versions| - 1;
    forall i | 0 <= i < |after| - 1 ensures 0 < after[i].ending <= now && (i < last ==> after[i] == versions[i]) {
    }
    forall i, j | 0 <= i < j < |after| && after[j].perSecond != 0 ensures after[i].ending <= after[j].starting {
      if j <= last {
        assert after[j].starting == versions[j].starting && after[j].perSecond == versions[j].perSecond;
        assert after[i] == versions[i];
      }
    }
  }

  /** The window in which a version pays. */
  ghost predicate Pays(v: Version, time: nat)
  {
    v.perSecond != 0 && v.starting <= time < v.ending
  }

  /** No moment is paid for by two versions. */
  lemma WindowsDisjoint(versions: seq<Version>, now: nat, i: nat, j: nat, time: nat)
    requires InOrder(versions, now)
    requires i < j < |versions|
    ensures !(Pays(versions[i], time) && Pays(versions[j], time))
  {
  }

  /** What the details of a campaign promise a position, without looking at any other version. */
  function Lookup(d: Details, now: U64, lower: I32, upper: I32): Finding
  {
    if d.NoDetails? then Nothing
    else if d.starting < now < d.ending && d.tickLower <= lower && upper <= d.tickUpper
    then Earned(d.perSecond, now - d.starting)
    else Nothing
  }

  lemma {:induction false} ScanPassesClosed(versions: seq<Version>, offset: nat, now: U64, lower: I32, upper: I32)
    requires offset < |versions|
    requires forall i :: 0 <= i < |versions| - 1 ==> 0 < versions[i].ending <= now
    ensures Scan(versions, offset, now, lower, upper) == Scan(versions, |versions| - 1, now, lower, upper)
    decreases |versions| - offset
  {
    if offset < |versions| - 1 {
      ScanPassesClosed(versions, offset + 1, now, lower, upper);
    }
  }

  /** On an ordered list the scan finds exactly what the last version alone says. */
  lemma ScanIsLookup(s: Storage, pool: Address, id: CampaignId, now: U64, lower: I32, upper: I32)
    requires InOrder(s.Versions(pool, id), now)
    ensures Scan(s.Versions(pool, id), 0, now, lower, upper) == Lookup(CampaignDetails(s, pool, id), now, lower, upper)
  {
    var versions := s.Versions(pool, id);
    if versions != [] {
      ScanPassesClosed(versions, 0, now, lower, upper);
      assert Scan(versions, |versions|, now, lower, upper) == Nothing;
    }
  }
}
