/** The realm update handler: both modes of the PUT, the pairwise sector key, and runs of updates. */
module RealmUpdates {
  import opened Prelude
  import opened RealmMerge

  // --- The sector key ------------------------------------------------------

  function SectorKey(attributes: map<string, string>): (r: Option<string>) {
    if SECTOR_KEY in attributes && attributes[SECTOR_KEY] != "" then Some(attributes[SECTOR_KEY]) else None
  }

  /** A stored key is carried over unless the new attributes have one of their own. */
  function KeepSectorKey(stored: map<string, string>, updated: map<string, string>): (r: map<string, string>)
    ensures "pairwise_sector_key" !in updated ==> SectorKey(r) == SectorKey(stored)
    ensures r - {"pairwise_sector_key"} == updated - {"pairwise_sector_key"}
  {
    if SectorKey(stored).Some? && SECTOR_KEY !in updated then updated[SECTOR_KEY := SectorKey(stored).value] else updated
  }

  // --- One update ----------------------------------------------------------

  /** What does not depend on the request: the policy codec and the default policy. */
  datatype Context = Context(codec: Codec, policy: Policy)

  datatype Update = Update(rep: Rep, merge: bool, freshId: string)

  function Converted(c: Context, u: Update, existing: Realm): (r: Result<Realm, Checked>) {
    if u.merge then Merge(c.codec, u.rep, existing) else Replace(c.codec, c.policy, u.freshId, u.rep)
  }

  function Put(c: Context, u: Update, existing: Realm): (r: Result<Realm, Checked>) {
    if RealmName(u.rep.realm) != Some(existing.name) then Err(NameOfRealm)
    else
      var updated := Converted(c, u, existing);
      if updated.Err? then updated
      else Ok(updated.value.(id := existing.id, name := existing.name,
                             attributes := KeepSectorKey(existing.attributes, updated.value.attributes)))
  }

  class Store {
    var realm: Realm

    method UpdateRealm(c: Context, u: Update) returns (r: Option<Checked>)
      modifies this
      ensures var o := Put(c, u, old(realm));
              realm == (if o.Ok? then o.value else old(realm)) && r == if o.Ok? then None else Some(o.error)
    {
      if RealmName(u.rep.realm) != Some(realm.name) {
        return Some(NameOfRealm);
      }
      var updated;
      if u.merge {
        updated := MergeRealmRepresentation(c.codec, u.rep, realm);
      } else {
        updated := Replace(c.codec, c.policy, u.freshId, u.rep);
      }
      if updated.Err? {
        return Some(updated.error);
      }
      var next := updated.value.(id := realm.id);
      if SectorKey(realm.attributes).Some? && SECTOR_KEY !in next.attributes {
        next := next.(attributes := next.attributes[SECTOR_KEY := SectorKey(realm.attributes).value]);
      }
      realm := next.(name := realm.name);
      return None;
    }
  }

  // --- Composition ---------------------------------------------------------

  predicate NamesKey(rep: Rep) {
    rep.attributes.Some? && SECTOR_KEY in rep.attributes.value
  }

  /** The body changes the sector key, possibly to an unusable one. */
  predicate Rotates(rep: Rep, stored: map<string, string>) {
    NamesKey(rep) && SectorKey(rep.attributes.value) != SectorKey(stored)
  }

  lemma KeyAfter(stored: map<string, string>, rep: Rep)
    ensures SectorKey(KeepSectorKey(stored, Or(rep.attributes, stored))) != SectorKey(stored) <==> Rotates(rep, stored)
  {
  }

  lemma AttributesComposeIff(stored: map<string, string>, first: Rep, second: Rep)
    ensures var middle := KeepSectorKey(stored, Or(first.attributes, stored));
            KeepSectorKey(middle, Or(second.attributes, middle))
              == KeepSectorKey(stored, Or(OrElse(second.attributes, first.attributes), stored))
            <==> !(Rotates(first, stored) && second.attributes.Some? && !NamesKey(second))
  {
    KeyAfter(stored, first);
    var middle := KeepSectorKey(stored, Or(first.attributes, stored));
    if second.attributes.Some? && !NamesKey(second) {
      var left, right := KeepSectorKey(middle, second.attributes.value), KeepSectorKey(stored, second.attributes.value);
      assert SectorKey(left) == SectorKey(middle) && SectorKey(right) == SectorKey(stored);
    }
  }

  lemma MergeIgnoresAttributes(codec: Codec, rep: Rep, base: Realm, attributes: map<string, string>)
    requires Merge(codec, rep, base).Ok?
    ensures var changed := Merge(codec, rep, base.(attributes := attributes));
            changed == Ok(Merge(codec, rep, base).value.(attributes := Or(rep.attributes, attributes)))
  {
  }

  /**
    Two accepted merge updates do what their overlay does, unless the first rotates the sector key and
    the second sends attributes without one: then the second keeps the new key, the overlay the old.
   */
  lemma MergeUpdatesComposeIff(c: Context, first: Rep, second: Rep, id: string, base: Realm)
    requires Put(c, Update(first, true, id), base).Ok?
    requires Put(c, Update(second, true, id), Put(c, Update(first, true, id), base).value).Ok?
    ensures Put(c, Update(second, true, id), Put(c, Update(first, true, id), base).value)
              == Put(c, Update(Overlay(first, second), true, id), base)
            <==> !(Rotates(first, base.attributes) && second.attributes.Some? && !NamesKey(second))
  {
    var b1 := Put(c, Update(first, true, id), base).value;
    var m1 := Merge(c.codec, first, base).value;
    assert m1.(attributes := b1.attributes) == b1;
    MergeComposes(c.codec, first, second, base);
    SecondMerge(c, second, m1, b1.attributes);
    AttributesComposeIff(base.attributes, first, second);
  }

  lemma SecondMerge(c: Context, second: Rep, m1: Realm, attributes: map<string, string>)
    requires Merge(c.codec, second, m1.(attributes := attributes)).Ok?
    ensures Merge(c.codec, second, m1).Ok?
    ensures Merge(c.codec, second, m1.(attributes := attributes)).value
            == Merge(c.codec, second, m1).value.(attributes := Or(second.attributes, attributes))
  {
    MergeIgnoresAttributes(c.codec, second, m1.(attributes := attributes), m1.attributes);
    assert m1.(attributes := attributes).(attributes := m1.attributes) == m1;
  }

  /** A rotation followed by attributes without a key: the overlay would bring the old key back. */
  lemma OverlayBringsOldKeyBack(c: Context, base: Realm, id: string, key: string)
    requires Valid(base) && key != "" && SectorKey(base.attributes) != Some(key)
    ensures var first, second := EmptyRep(base.name).(attributes := Some(map[SECTOR_KEY := key])),
                                 EmptyRep(base.name).(attributes := Some(map[]));
            var b1 := Put(c, Update(first, true, id), base);
            && b1.Ok? && SectorKey(b1.value.attributes) == Some(key)
            && Put(c, Update(second, true, id), b1.value).Ok?
            && Put(c, Update(second, true, id), b1.value) != Put(c, Update(Overlay(first, second), true, id), base)
  {
    var first := EmptyRep(base.name).(attributes := Some(map[SECTOR_KEY := key]));
    var second := EmptyRep(base.name).(attributes := Some(map[]));
    var b1 := Put(c, Update(first, true, id), base);
    assert b1.Ok?;
    assert Put(c, Update(second, true, id), b1.value).Ok?;
    assert Rotates(first, base.attributes);
    MergeUpdatesComposeIff(c, first, second, id, base);
  }

  // --- Runs ----------------------------------------------------------------

  function Run(c: Context, us: seq<Update>, realm: Realm): (r: Realm) {
    if us == [] then realm
    else
      var before := Run(c, us[..|us| - 1], realm);
      var o := Put(c, us[|us| - 1], before);
      if o.Ok? then o.value else before
  }

  /** Every field that cannot be null has a value. */
  predicate Complete(realm: Realm) {
    DefaultRealm(realm.policy).settings.Keys <= realm.settings.Keys
  }

  /** What every stored realm is like. */
  predicate Valid(realm: Realm) {
    && FitsI64(realm.lifespans) && OtpInRange(realm.otp) && StoredNames(realm)
    && RealmName(realm.name) == Some(realm.name) && Complete(realm)
  }

  lemma MergedNamesAreStored(codec: Codec, rep: Rep, base: Realm)
    requires Problem(codec, rep, base).None? && StoredNames(base)
    ensures StoredNames(Merged(codec, rep, base))
  {
    ValidNamesStay(Or(rep.displayName, ""));
    ValidNamesStay(Or(rep.loginTheme, ""));
    ValidNamesStay(Or(rep.emailTheme, ""));
    ValidNamesStay(Or(rep.adminTheme, ""));
  }

  lemma MergedNumbersFit(codec: Codec, rep: Rep, base: Realm)
    requires Problem(codec, rep, base).None? && OtpInRange(base.otp)
    ensures FitsI64(Merged(codec, rep, base).lifespans) && OtpInRange(Merged(codec, rep, base).otp)
  {
  }

  lemma MergeKeepsShape(codec: Codec, rep: Rep, base: Realm)
    requires Problem(codec, rep, base).None? && OtpInRange(base.otp) && StoredNames(base) && Complete(base)
    ensures var r := Merged(codec, rep, base);
            FitsI64(r.lifespans) && OtpInRange(r.otp) && StoredNames(r) && Complete(r)
  {
    MergedNumbersFit(codec, rep, base);
    MergedNamesAreStored(codec, rep, base);
  }

  lemma PutKeepsValid(c: Context, u: Update, existing: Realm)
    requires Valid(existing) && Put(c, u, existing).Ok?
    ensures Valid(Put(c, u, existing).value)
  {
    if u.merge {
      MergeKeepsShape(c.codec, u.rep, existing);
    } else {
      ReplaceIsMergeOverDefaults(c.codec, c.policy, u.freshId, u.rep);
      MergeKeepsShape(c.codec, u.rep, DefaultRealm(c.policy));
    }
  }

  /** Any run of updates, in either mode, keeps the realm valid, its id and its name. */
  lemma {:induction false} RunKeepsValid(c: Context, us: seq<Update>, realm: Realm)
    requires Valid(realm)
    ensures var r := Run(c, us, realm); Valid(r) && r.id == realm.id && r.name == realm.name
  {
    if us != [] {
      var before, u := Run(c, us[..|us| - 1], realm), us[|us| - 1];
      RunKeepsValid(c, us[..|us| - 1], realm);
      if Put(c, u, before).Ok? {
        PutKeepsValid(c, u, before);
      }
    }
  }

  /** An accepted replacement leaves nothing of what came before it but id, name and sector key. */
  lemma ReplacementForgets(c: Context, us: seq<Update>, vs: seq<Update>, u: Update, realm: Realm)
    requires Valid(realm) && !u.merge && Put(c, u, realm).Ok?
    requires SectorKey(Run(c, us, realm).attributes) == SectorKey(Run(c, vs, realm).attributes)
    ensures Run(c, us + [u], realm) == Run(c, vs + [u], realm)
    ensures var settings := Run(c, us + [u], realm).settings;
            forall k :: k in u.rep.settings ==> k in settings && settings[k] == u.rep.settings[k]
  {
    assert (us + [u])[..|us|] == us && (vs + [u])[..|vs|] == vs;
    RunKeepsValid(c, us, realm);
    RunKeepsValid(c, vs, realm);
  }

  /** The sector key outlives every run of bodies that do not name it, replacements included. */
  lemma {:induction false} SectorKeySurvives(c: Context, us: seq<Update>, realm: Realm)
    requires forall u :: u in us ==> !NamesKey(u.rep)
    ensures SectorKey(Run(c, us, realm).attributes) == SectorKey(realm.attributes)
  {
    if us != [] {
      var before, u := Run(c, us[..|us| - 1], realm), us[|us| - 1];
      SectorKeySurvives(c, us[..|us| - 1], realm);
      if Put(c, u, before).Ok? {
        PutKeepsKey(c, u, before);
      }
    }
  }

  lemma PutKeepsKey(c: Context, u: Update, existing: Realm)
    requires !NamesKey(u.rep) && Put(c, u, existing).Ok?
    ensures SectorKey(Put(c, u, existing).value.attributes) == SectorKey(existing.attributes)
  {
    KeyAfter(existing.attributes, u.rep);
  }

  // --- Read, then write back -----------------------------------------------

  predicate EmptyKey(realm: Realm) {
    SECTOR_KEY in realm.attributes && realm.attributes[SECTOR_KEY] == ""
  }

  lemma KeyComesBackIff(attributes: map<string, string>)
    ensures KeepSectorKey(attributes, attributes - {SECTOR_KEY}) == attributes
            <==> !(SECTOR_KEY in attributes && attributes[SECTOR_KEY] == "")
  {
  }

  lemma ReadBackConverts(c: Context, realm: Realm, merge: bool, id: string)
    requires RoundTrips(c.codec) && Valid(realm) && realm.id != ""
    ensures var r := Converted(c, Update(Represent(c.codec, realm), merge, id), realm);
            r.Ok? && r.value == realm.(attributes := realm.attributes - {SECTOR_KEY})
  {
    RepresentationMergesIff(c.codec, realm);
    if !merge {
      ReplaceIsMergeOverDefaults(c.codec, c.policy, id, Represent(c.codec, realm));
      RepresentationProblem(c.codec, realm, DefaultRealm(c.policy));
      ReplacementForgetsNothing(c, realm);
    }
  }

  lemma ReplacementForgetsNothing(c: Context, realm: Realm)
    requires RoundTrips(c.codec) && Valid(realm) && Problem(c.codec, Represent(c.codec, realm), DefaultRealm(c.policy)).None?
    ensures Merged(c.codec, Represent(c.codec, realm), DefaultRealm(c.policy))
            == realm.(id := "default", name := "default", attributes := realm.attributes - {SECTOR_KEY})
  {
    var defaults := DefaultRealm(c.policy).settings;
    assert c.codec.parse(c.codec.write(realm.policy)) == Some(realm.policy);
    assert defaults.Keys == DefaultRealm(realm.policy).settings.Keys;
    assert defaults + realm.settings == realm.settings;
  }

  /** Writing back what was read changes nothing, in either mode, unless the sector key is the empty string. */
  lemma ReadBackIff(c: Context, realm: Realm, merge: bool, id: string)
    requires RoundTrips(c.codec) && Valid(realm) && realm.id != ""
    ensures Put(c, Update(Represent(c.codec, realm), merge, id), realm) == Ok(realm) <==> !EmptyKey(realm)
  {
    ReadBackConverts(c, realm, merge, id);
    KeyComesBackIff(realm.attributes);
  }

  /** So it is at every realm that updates can reach. */
  lemma ReachableRealmsReadBack(c: Context, us: seq<Update>, start: Realm, merge: bool, id: string)
    requires RoundTrips(c.codec) && Valid(start) && start.id != ""
    ensures var r := Run(c, us, start);
            Put(c, Update(Represent(c.codec, r), merge, id), r) == Ok(r) <==> !EmptyKey(r)
  {
    RunKeepsValid(c, us, start);
    ReadBackIff(c, Run(c, us, start), merge, id);
  }
}
