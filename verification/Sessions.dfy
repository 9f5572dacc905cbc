/** What the entries of no user stand for, through any run of user switches, puts, deletions and restarts. The store
    outlives the service; the foreground user the service remembers does not. */
module Sessions {
  import opened Text
  import opened DbKeys
  import opened Entries
  import opened UserSwitch

  // ---------------------------------------------------------------- the entries of no user

  /** The untagged entry of one property is the foreground user's: mirrored when it owns the property, absent when only
      others do. */
  ghost predicate ForegroundAt(store: Store, udid: string, u: Int32, ref: ProfileRef, p: string) {
    var k := KeyOf(ref, p, DEFAULT_USER_ID);
    && (Owns(store, udid, ref, p, u) ==> k in store && store[k] == store[KeyOf(ref, p, u)])
    && (forall v: Int32 :: Owns(store, udid, ref, p, v) && !Owns(store, udid, ref, p, u) ==> k !in store)
  }

  ghost predicate Foreground(store: Store, udid: string, u: Int32) {
    forall ref, p :: CleanRef(ref) && Clean(p) ==> ForegroundAt(store, udid, u, ref, p)
  }

  ghost predicate HasUntagged(store: Store, ref: ProfileRef, p: string) {
    KeyOf(ref, p, DEFAULT_USER_ID) in store
  }

  /** The untagged entry of this property belongs to neither user of a switch, so the switch leaves it. */
  ghost predicate Bystander(store: Store, udid: string, last: Int32, cur: Int32, ref: ProfileRef, p: string) {
    && HasUntagged(store, ref, p) && !Owns(store, udid, ref, p, cur) && !Owns(store, udid, ref, p, last)
    && exists v: Int32 :: Owns(store, udid, ref, p, v)
  }

  lemma TaggedSame(before: Store, after: Store, udid: string)
    requires forall ref, p, u: Int32 :: CleanRef(ref) && Clean(p) && u != DEFAULT_USER_ID ==>
               SameAt(before, after, KeyOf(ref, p, u))
    ensures forall ref, p, v: Int32 :: CleanRef(ref) && Clean(p) ==>
              (Owns(before, udid, ref, p, v) <==> Owns(after, udid, ref, p, v))
  {
    hide KeyOf, IsLocal;
  }

  /** A completed switch puts the arriving user in the foreground exactly when no third user's property has an untagged
      entry that neither user of the switch owns. */
  lemma SwitchForegroundExactly(before: Store, after: Store, udid: string, last: Int32, cur: Int32)
    requires SwitchedTo(before, after, udid, last, cur)
    ensures Foreground(after, udid, cur) <==>
            forall ref, p :: CleanRef(ref) && Clean(p) ==> !Bystander(before, udid, last, cur, ref, p)
  {
    hide KeyOf, IsLocal, Owns;
    TaggedSame(before, after, udid);
    forall ref, p | CleanRef(ref) && Clean(p)
      ensures ForegroundAt(after, udid, cur, ref, p) <==> !Bystander(before, udid, last, cur, ref, p)
    {
      SwitchedAt(before, after, udid, last, cur, ref, p);
    }
  }

  lemma SwitchedAt(before: Store, after: Store, udid: string, last: Int32, cur: Int32, ref: ProfileRef, p: string)
    requires SwitchedTo(before, after, udid, last, cur) && CleanRef(ref) && Clean(p)
    ensures ForegroundAt(after, udid, cur, ref, p) <==> !Bystander(before, udid, last, cur, ref, p)
  {
    hide KeyOf, IsLocal, CleanRef;
    var k := KeyOf(ref, p, DEFAULT_USER_ID);
    TaggedSame(before, after, udid);
    hide Owns;
    if Owns(before, udid, ref, p, cur) {
      assert cur != DEFAULT_USER_ID by { OwnerIsTagged(before, udid, ref, p, cur); }
      assert SameAt(before, after, KeyOf(ref, p, cur));
      assert KeyOf(ref, p, cur) in before by { OwnerIsTagged(before, udid, ref, p, cur); }
    }
  }

  lemma OwnerIsTagged(store: Store, udid: string, ref: ProfileRef, p: string, u: Int32)
    requires Owns(store, udid, ref, p, u)
    ensures u != DEFAULT_USER_ID && KeyOf(ref, p, u) in store
  {
  }

  /** In particular a switch between users keeps an ordered store ordered. */
  lemma SwitchKeepsForeground(before: Store, after: Store, udid: string, last: Int32, cur: Int32)
    requires SwitchedTo(before, after, udid, last, cur) && Foreground(before, udid, last)
    ensures Foreground(after, udid, cur)
  {
    hide KeyOf, Owns, SwitchedTo;
    SwitchForegroundExactly(before, after, udid, last, cur);
    forall ref, p | CleanRef(ref) && Clean(p) ensures !Bystander(before, udid, last, cur, ref, p) {
      assert ForegroundAt(before, udid, last, ref, p);
    }
  }

  /** After a restart the first switch starts from no user. It puts the arriving user in the foreground exactly when
      that user owns every property the previous foreground user owned. */
  lemma RestartForegroundExactly(s: Store, t: Store, udid: string, a: Int32, b: Int32)
    requires Foreground(s, udid, a) && SwitchedTo(s, t, udid, DEFAULT_USER_ID, b)
    ensures Foreground(t, udid, b) <==>
            forall ref, p :: CleanRef(ref) && Clean(p) && Owns(s, udid, ref, p, a) ==> Owns(s, udid, ref, p, b)
  {
    hide KeyOf, SwitchedTo, IsLocal;
    SwitchForegroundExactly(s, t, udid, DEFAULT_USER_ID, b);
    forall ref, p | CleanRef(ref) && Clean(p)
      ensures Bystander(s, udid, DEFAULT_USER_ID, b, ref, p) <==> Owns(s, udid, ref, p, a) && !Owns(s, udid, ref, p, b)
    {
      assert ForegroundAt(s, udid, a, ref, p);
    }
  }

  /** Learning the foreground user from the system without a switch is right only while that user owns nothing. */
  lemma LearnForegroundExactly(s: Store, udid: string, b: Int32)
    requires Foreground(s, udid, DEFAULT_USER_ID)
    ensures Foreground(s, udid, b) <==> forall ref, p :: CleanRef(ref) && Clean(p) ==> !Owns(s, udid, ref, p, b)
  {
    hide KeyOf, IsLocal;
    forall ref, p | CleanRef(ref) && Clean(p)
      ensures ForegroundAt(s, udid, b, ref, p) <==> !Owns(s, udid, ref, p, b)
    {
      assert ForegroundAt(s, udid, DEFAULT_USER_ID, ref, p);
    }
  }

  /** A put for no user is harmless exactly when each property it writes is owned by nobody, or by the foreground user
      with that very value. */
  lemma PlainPutForegroundExactly(s: Store, t: Store, udid: string, values: map<Property, string>, u: Int32, fg: Int32)
    requires Foreground(s, udid, u) && PutTo(s, t, values, DEFAULT_USER_ID, fg)
    ensures Foreground(t, udid, u) <==>
            forall ref, p :: CleanRef(ref) && Clean(p) && (ref, p) in values ==>
                Harmless(s, udid, u, ref, p, values[(ref, p)])
  {
    hide KeyOf, IsLocal, CleanRef, Owns;
    PlainPutOwners(s, t, udid, values, fg);
    forall ref, p | CleanRef(ref) && Clean(p)
      ensures ForegroundAt(t, udid, u, ref, p) <==>
              ((ref, p) in values ==> Harmless(s, udid, u, ref, p, values[(ref, p)]))
    {
      assert ForegroundAt(s, udid, u, ref, p);
      PlainPutAt(s, t, udid, values, u, fg, ref, p);
    }
  }

  ghost predicate Harmless(s: Store, udid: string, u: Int32, ref: ProfileRef, p: string, value: string) {
    if Owns(s, udid, ref, p, u) then s[KeyOf(ref, p, u)] == value else forall v: Int32 :: !Owns(s, udid, ref, p, v)
  }

  lemma PlainPutOwners(s: Store, t: Store, udid: string, values: map<Property, string>, fg: Int32)
    requires PutTo(s, t, values, DEFAULT_USER_ID, fg)
    ensures forall ref, p, v: Int32 :: CleanRef(ref) && Clean(p) ==>
             (Owns(s, udid, ref, p, v) <==> Owns(t, udid, ref, p, v))
  {
    hide KeyOf, IsLocal, IsWritten;
    forall ref, p, u: Int32 | CleanRef(ref) && Clean(p) && u != DEFAULT_USER_ID ensures SameAt(s, t, KeyOf(ref, p, u)) {
    }
    TaggedSame(s, t, udid);
  }

  lemma PlainPutAt(s: Store, t: Store, udid: string, values: map<Property, string>, u: Int32, fg: Int32,
                   ref: ProfileRef, p: string)
    requires PutTo(s, t, values, DEFAULT_USER_ID, fg) && CleanRef(ref) && Clean(p) && ForegroundAt(s, udid, u, ref, p)
    ensures ForegroundAt(t, udid, u, ref, p) <==>
             ((ref, p) in values ==> Harmless(s, udid, u, ref, p, values[(ref, p)]))
  {
    hide KeyOf, IsLocal, CleanRef, IsWritten;
    PlainPutOwners(s, t, udid, values, fg);
    if Owns(s, udid, ref, p, u) {
      assert SameAt(s, t, KeyOf(ref, p, u));
    }
  }

  /** Switching away and back restores every entry exactly when each property was already in order between the two
      users. */
  lemma ThereAndBack(s: Store, t: Store, s': Store, udid: string, a: Int32, b: Int32)
    requires SwitchedTo(s, t, udid, a, b) && SwitchedTo(t, s', udid, b, a)
    ensures (forall ref, p, u: Int32 :: CleanRef(ref) && Clean(p) ==> SameAt(s, s', KeyOf(ref, p, u))) <==>
            forall ref, p :: CleanRef(ref) && Clean(p) ==> InOrder(s, udid, a, b, ref, p)
  {
    hide KeyOf, IsLocal, Owns, InOrder;
    forall ref, p | CleanRef(ref) && Clean(p)
      ensures SameAt(s, s', KeyOf(ref, p, DEFAULT_USER_ID)) <==> InOrder(s, udid, a, b, ref, p)
    {
      BackAt(s, t, s', udid, a, b, ref, p);
    }
    forall ref, p, u: Int32 | CleanRef(ref) && Clean(p) && u != DEFAULT_USER_ID
      ensures SameAt(s, s', KeyOf(ref, p, u))
    {
      assert SameAt(s, t, KeyOf(ref, p, u)) && SameAt(t, s', KeyOf(ref, p, u));
    }
  }

  ghost predicate InOrder(s: Store, udid: string, a: Int32, b: Int32, ref: ProfileRef, p: string) {
    var k := KeyOf(ref, p, DEFAULT_USER_ID);
    if Owns(s, udid, ref, p, a) then k in s && s[k] == s[KeyOf(ref, p, a)]
    else Owns(s, udid, ref, p, b) ==> k !in s
  }

  lemma BackAt(s: Store, t: Store, s': Store, udid: string, a: Int32, b: Int32, ref: ProfileRef, p: string)
    requires SwitchedTo(s, t, udid, a, b) && SwitchedTo(t, s', udid, b, a) && CleanRef(ref) && Clean(p)
    ensures SameAt(s, s', KeyOf(ref, p, DEFAULT_USER_ID)) <==> InOrder(s, udid, a, b, ref, p)
  {
    hide KeyOf, IsLocal, CleanRef;
    TaggedSame(s, t, udid);
    if Owns(s, udid, ref, p, a) {
      assert SameAt(s, t, KeyOf(ref, p, a));
    }
  }

  // ---------------------------------------------------------------- runs

  /** The store and the foreground user the service remembers. The other fields are history: the user the untagged
      entries should stand for, who is still the last known one after a restart; the users who were in the foreground
      and have not been switched away from completely; whether the present one came by a switch that saved its
      entries; and the properties whose untagged entry was last touched without regard to an owner. */
  datatype Session = Session(store: Store, user: Int32, standing: Int32, unsettled: set<Int32>, mirrored: bool,
                             loose: iset<Property>)

  datatype Step =
    | Switch(cur: Int32, outcome: Outcome)
    | Restart                                                  // the store stays, the remembered user is lost
    | Learn(cur: Int32)                                        // the remembered user is filled in without a switch
    | Put(user: Int32, values: map<Property, string>)
    | Delete(user: Int32, props: set<Property>)
    | RemoveUser(user: Int32)

  ghost function OwnedProperties(store: Store, udid: string, u: Int32): iset<Property> {
    iset x: Property | Owns(store, udid, x.0, x.1, u)
  }

  /** A put reaches only well-formed properties of this device. */
  ghost predicate LocalValues(values: map<Property, string>, user: Int32, udid: string) {
    forall ref, p :: (ref, p) in values ==> CleanRef(ref) && Clean(p) && IsLocal(KeyOf(ref, p, user), udid)
  }

  ghost predicate StoreStep(s: Session, step: Step, after: Store, udid: string) {
    match step
    case Switch(cur, outcome) =>
      if cur == s.user then after == s.store else SwitchResult(s.store, after, udid, s.user, cur, outcome)
    case Restart => after == s.store
    case Learn(_) => after == s.store
    case Put(user, values) => LocalValues(values, user, udid) && PutTo(s.store, after, values, user, s.user)
    case Delete(user, props) => DeletedFrom(s.store, after, props, user, s.user)
    case RemoveUser(user) => user != DEFAULT_USER_ID && UserRemovedFrom(s.store, after, udid, user)
  }

  ghost function Next(s: Session, step: Step, after: Store, udid: string): Session {
    match step
    case Switch(cur, outcome) =>
      if cur == s.user then s.(store := after)
      else Session(after, cur, cur, (if outcome.Completed? then s.unsettled - {s.user} else s.unsettled) + {cur},
                   !outcome.Untouched?, StillLoose(s, outcome, cur, udid))
    case Restart => s.(store := after, user := DEFAULT_USER_ID, mirrored := true)
    case Learn(cur) =>
      if s.user != DEFAULT_USER_ID || cur == DEFAULT_USER_ID then s.(store := after)
      else s.(store := after, user := cur, standing := cur, unsettled := s.unsettled + {cur}, mirrored := false)
    case Put(user, values) =>
      s.(store := after, loose := if user == DEFAULT_USER_ID then s.loose + iset x | x in values
                                  else if user == s.user then s.loose - iset x | x in values
                                  else s.loose)
    case Delete(user, props) =>
      s.(store := after, loose := if user == DEFAULT_USER_ID || (user in s.unsettled && user != s.user)
                                  then s.loose + iset x | x in props else s.loose)
    case RemoveUser(user) =>
      s.(store := after,
         loose := if user in s.unsettled then s.loose + OwnedProperties(s.store, udid, user) else s.loose)
  }

  ghost function StillLoose(s: Session, outcome: Outcome, cur: Int32, udid: string): iset<Property> {
    match outcome
    case Untouched => s.loose
    case SavedOnly => s.loose - OwnedProperties(s.store, udid, cur)
    case Completed => s.loose - OwnedProperties(s.store, udid, cur) - OwnedProperties(s.store, udid, s.user)
  }

  /** Any store the service may find, under any remembered user. */
  ghost function Opened(store: Store, user: Int32, udid: string): Session {
    Session(store, user, user, {user}, false,
            iset x: Property | HasUntagged(store, x.0, x.1) && !Owns(store, udid, x.0, x.1, user))
  }

  ghost predicate IsRun(states: seq<Session>, steps: seq<Step>, udid: string) {
    && |states| == |steps| + 1
    && forall i | 0 <= i < |steps| ::
         StoreStep(states[i], steps[i], states[i + 1].store, udid)
         && states[i + 1] == Next(states[i], steps[i], states[i + 1].store, udid)
  }

  // ---------------------------------------------------------------- what every run keeps

  /** An untagged entry stands for a user who was in the foreground, and the present one's properties are mirrored. */
  ghost predicate KeptAt(s: Session, udid: string, ref: ProfileRef, p: string) {
    && (HasUntagged(s.store, ref, p) ==> exists w :: w in s.unsettled && Owns(s.store, udid, ref, p, w))
    && (s.mirrored && Owns(s.store, udid, ref, p, s.user) ==>
          HasUntagged(s.store, ref, p) && s.store[KeyOf(ref, p, DEFAULT_USER_ID)] == s.store[KeyOf(ref, p, s.user)])
  }

  ghost predicate Inv(s: Session, udid: string) {
    && (s.user == DEFAULT_USER_ID || s.user in s.unsettled)
    && forall ref, p :: CleanRef(ref) && Clean(p) && (ref, p) !in s.loose ==> KeptAt(s, udid, ref, p)
  }

  lemma OpenedInv(store: Store, user: Int32, udid: string)
    ensures Inv(Opened(store, user, udid), udid)
  {
    hide KeyOf, IsLocal;
  }

  lemma SwitchKept(s: Session, cur: Int32, outcome: Outcome, after: Store, udid: string)
    requires Inv(s, udid) && cur != s.user && SwitchResult(s.store, after, udid, s.user, cur, outcome)
    ensures Inv(Next(s, Switch(cur, outcome), after, udid), udid)
  {
    hide KeyOf, IsLocal, CleanRef;
    var s' := Next(s, Switch(cur, outcome), after, udid);
    TaggedSame(s.store, after, udid);
    forall ref, p | CleanRef(ref) && Clean(p) && (ref, p) !in s'.loose ensures KeptAt(s', udid, ref, p) {
      SwitchKeptAt(s, cur, outcome, after, udid, ref, p);
    }
  }

  lemma SwitchKeptAt(s: Session, cur: Int32, outcome: Outcome, after: Store, udid: string, ref: ProfileRef, p: string)
    requires Inv(s, udid) && cur != s.user && SwitchResult(s.store, after, udid, s.user, cur, outcome)
    requires CleanRef(ref) && Clean(p) && (ref, p) !in Next(s, Switch(cur, outcome), after, udid).loose
    ensures KeptAt(Next(s, Switch(cur, outcome), after, udid), udid, ref, p)
  {
    hide KeyOf, IsLocal, CleanRef;
    TaggedSame(s.store, after, udid);
    if Owns(s.store, udid, ref, p, cur) {
      assert SameAt(s.store, after, KeyOf(ref, p, cur));
    }
  }

  lemma PutKept(s: Session, user: Int32, values: map<Property, string>, after: Store, udid: string)
    requires Inv(s, udid) && LocalValues(values, user, udid) && PutTo(s.store, after, values, user, s.user)
    ensures Inv(Next(s, Put(user, values), after, udid), udid)
  {
    hide KeyOf, IsLocal, CleanRef, IsWritten;
    var s' := Next(s, Put(user, values), after, udid);
    forall ref, p | CleanRef(ref) && Clean(p) && (ref, p) !in s'.loose ensures KeptAt(s', udid, ref, p) {
      PutKeptAt(s, user, values, after, udid, ref, p);
    }
  }

  lemma PutKeptAt(s: Session, user: Int32, values: map<Property, string>, after: Store, udid: string, ref: ProfileRef,
                  p: string)
    requires Inv(s, udid) && LocalValues(values, user, udid) && PutTo(s.store, after, values, user, s.user)
    requires CleanRef(ref) && Clean(p) && (ref, p) !in Next(s, Put(user, values), after, udid).loose
    ensures KeptAt(Next(s, Put(user, values), after, udid), udid, ref, p)
  {
    hide KeyOf, IsLocal, CleanRef, IsWritten;
    if (ref, p) !in values || user != s.user {
      assert KeptAt(s, udid, ref, p);
      assert SameAt(s.store, after, KeyOf(ref, p, DEFAULT_USER_ID));
      forall w | w in s.unsettled && Owns(s.store, udid, ref, p, w) ensures Owns(after, udid, ref, p, w) {
        assert SameAt(s.store, after, KeyOf(ref, p, w)) || ((ref, p) in values && Reaches(user, s.user, w));
      }
    }
  }

  lemma DeleteKept(s: Session, user: Int32, props: set<Property>, after: Store, udid: string)
    requires Inv(s, udid) && DeletedFrom(s.store, after, props, user, s.user)
    ensures Inv(Next(s, Delete(user, props), after, udid), udid)
  {
    hide KeyOf, IsLocal, CleanRef, IsWritten;
    var s' := Next(s, Delete(user, props), after, udid);
    forall ref, p | CleanRef(ref) && Clean(p) && (ref, p) !in s'.loose ensures KeptAt(s', udid, ref, p) {
      DeleteKeptAt(s, user, props, after, udid, ref, p);
    }
  }

  lemma DeleteKeptAt(s: Session, user: Int32, props: set<Property>, after: Store, udid: string, ref: ProfileRef,
                     p: string)
    requires Inv(s, udid) && DeletedFrom(s.store, after, props, user, s.user)
    requires CleanRef(ref) && Clean(p) && (ref, p) !in Next(s, Delete(user, props), after, udid).loose
    ensures KeptAt(Next(s, Delete(user, props), after, udid), udid, ref, p)
  {
    hide KeyOf, IsLocal, CleanRef, IsWritten;
    assert KeptAt(s, udid, ref, p);
    if HasUntagged(after, ref, p) {
      assert SameAt(s.store, after, KeyOf(ref, p, DEFAULT_USER_ID));
      var w :| w in s.unsettled && Owns(s.store, udid, ref, p, w);
      assert SameAt(s.store, after, KeyOf(ref, p, w));
    }
    if Owns(after, udid, ref, p, s.user) {
      assert SameAt(s.store, after, KeyOf(ref, p, s.user));
      assert SameAt(s.store, after, KeyOf(ref, p, DEFAULT_USER_ID));
    }
  }

  lemma RemoveUserKept(s: Session, user: Int32, after: Store, udid: string)
    requires Inv(s, udid) && user != DEFAULT_USER_ID && UserRemovedFrom(s.store, after, udid, user)
    ensures Inv(Next(s, RemoveUser(user), after, udid), udid)
  {
    hide KeyOf, IsLocal, CleanRef;
    var s' := Next(s, RemoveUser(user), after, udid);
    forall ref, p | CleanRef(ref) && Clean(p) && (ref, p) !in s'.loose ensures KeptAt(s', udid, ref, p) {
      assert KeptAt(s, udid, ref, p);
      assert SameAt(s.store, after, KeyOf(ref, p, DEFAULT_USER_ID));
      assert SameAt(s.store, after, KeyOf(ref, p, s.user)) || user == s.user;
      if HasUntagged(after, ref, p) {
        var w :| w in s.unsettled && Owns(s.store, udid, ref, p, w);
        assert SameAt(s.store, after, KeyOf(ref, p, w)) || w == user;
      }
    }
  }

  lemma IdleKept(s: Session, step: Step, udid: string)
    requires Inv(s, udid) && (step.Restart? || step.Learn? || (step.Switch? && step.cur == s.user))
    ensures Inv(Next(s, step, s.store, udid), udid)
  {
    hide KeyOf, IsLocal, CleanRef;
    var s' := Next(s, step, s.store, udid);
    forall ref, p | CleanRef(ref) && Clean(p) && (ref, p) !in s'.loose ensures KeptAt(s', udid, ref, p) {
      assert KeptAt(s, udid, ref, p);
    }
  }

  lemma StepKept(s: Session, step: Step, after: Store, udid: string)
    requires Inv(s, udid) && StoreStep(s, step, after, udid)
    ensures Inv(Next(s, step, after, udid), udid)
  {
    hide Inv, Next, SwitchResult, PutTo, DeletedFrom, LocalValues, UserRemovedFrom;
    match step
    case Switch(cur, outcome) =>
      if cur == s.user {
        IdleKept(s, step, udid);
      } else {
        SwitchKept(s, cur, outcome, after, udid);
      }
    case Restart => IdleKept(s, step, udid);
    case Learn(_) => IdleKept(s, step, udid);
    case Put(user, values) => PutKept(s, user, values, after, udid);
    case Delete(user, props) => DeleteKept(s, user, props, after, udid);
    case RemoveUser(user) => RemoveUserKept(s, user, after, udid);
  }

  lemma {:induction false} RunKept(states: seq<Session>, steps: seq<Step>, udid: string)
    requires IsRun(states, steps, udid) && Inv(states[0], udid)
    ensures Inv(states[|steps|], udid)
    decreases |steps|
  {
    hide Inv, Next, StoreStep;
    if steps != [] {
      var n := |steps| - 1;
      RunKept(states[..n + 1], steps[..n], udid);
      StepKept(states[n], steps[n], states[n + 1].store, udid);
    }
  }

  // ---------------------------------------------------------------- main results

  /** The ways an untagged entry can come to be out of place: it was last touched without regard to an owner, the
      present user did not come by a switch, or it is left from a user who was never switched away from. */
  ghost predicate Suspect(s: Session, udid: string, ref: ProfileRef, p: string) {
    || (ref, p) in s.loose
    || (!s.mirrored && Owns(s.store, udid, ref, p, s.user))
    || (!Owns(s.store, udid, ref, p, s.user) &&
        exists w :: w in s.unsettled && w != s.user && Owns(s.store, udid, ref, p, w))
  }

  lemma UnsuspectInPlace(s: Session, udid: string, ref: ProfileRef, p: string)
    requires Inv(s, udid) && CleanRef(ref) && Clean(p) && !Suspect(s, udid, ref, p)
    ensures ForegroundAt(s.store, udid, s.user, ref, p)
  {
    hide KeyOf, IsLocal, CleanRef, Owns;
    assert KeptAt(s, udid, ref, p);
  }

  /** Through every run over every store, whatever it held at the start, the untagged entry of every other property is
      the foreground user's. */
  lemma UnsuspectThroughout(states: seq<Session>, steps: seq<Step>, udid: string, store: Store, user: Int32)
    requires IsRun(states, steps, udid) && states[0] == Opened(store, user, udid)
    ensures var s := states[|steps|];
            forall ref, p :: CleanRef(ref) && Clean(p) && !Suspect(s, udid, ref, p) ==>
              ForegroundAt(s.store, udid, s.user, ref, p)
  {
    hide KeyOf, Inv, Next, StoreStep, Suspect, ForegroundAt, CleanRef, Opened;
    OpenedInv(store, user, udid);
    RunKept(states, steps, udid);
    var s := states[|steps|];
    forall ref, p | CleanRef(ref) && Clean(p) && !Suspect(s, udid, ref, p)
      ensures ForegroundAt(s.store, udid, s.user, ref, p)
    {
      UnsuspectInPlace(s, udid, ref, p);
    }
  }

  // ---------------------------------------------------------------- the exact condition of every step

  /** Two users own the property alike: neither, or both with one value. */
  ghost predicate OwnAlike(store: Store, udid: string, a: Int32, b: Int32, ref: ProfileRef, p: string) {
    && (Owns(store, udid, ref, p, a) <==> Owns(store, udid, ref, p, b))
    && (Owns(store, udid, ref, p, a) ==> store[KeyOf(ref, p, a)] == store[KeyOf(ref, p, b)])
  }

  ghost predicate SoleOwner(store: Store, udid: string, a: Int32, ref: ProfileRef, p: string) {
    forall v: Int32 :: v != a ==> !Owns(store, udid, ref, p, v)
  }

  /** What the store must be like before a step for this property to stay in order, given that it is. */
  ghost predicate SafeAt(s: Session, step: Step, udid: string, ref: ProfileRef, p: string) {
    var a := s.standing;
    match step
    case Switch(cur, outcome) =>
      if cur == s.user then true
      else if outcome.Untouched? then OwnAlike(s.store, udid, a, cur, ref, p)
      else if outcome.Completed? && s.user == a then true
      else Owns(s.store, udid, ref, p, a) ==> Owns(s.store, udid, ref, p, cur)
    case Restart => true
    case Learn(cur) =>
      if s.user != DEFAULT_USER_ID || cur == DEFAULT_USER_ID then true else OwnAlike(s.store, udid, a, cur, ref, p)
    case Put(user, values) =>
      if (ref, p) !in values then true
      else if user == DEFAULT_USER_ID then Harmless(s.store, udid, a, ref, p, values[(ref, p)])
      else if user == s.user then true
      else if user == a then
        HasUntagged(s.store, ref, p) && s.store[KeyOf(ref, p, DEFAULT_USER_ID)] == values[(ref, p)]
      else Owns(s.store, udid, ref, p, a) || !HasUntagged(s.store, ref, p)
    case Delete(user, props) =>
      if (ref, p) !in props then true
      else if user == DEFAULT_USER_ID then !Owns(s.store, udid, ref, p, a)
      else if user == s.user || user != a then true
      else Owns(s.store, udid, ref, p, a) ==> SoleOwner(s.store, udid, a, ref, p)
    case RemoveUser(user) =>
      user == a && Owns(s.store, udid, ref, p, a) ==> SoleOwner(s.store, udid, a, ref, p)
  }

  ghost predicate Safe(s: Session, step: Step, udid: string) {
    forall ref, p :: CleanRef(ref) && Clean(p) ==> SafeAt(s, step, udid, ref, p)
  }

  ghost predicate InOrderAt(s: Session, udid: string, ref: ProfileRef, p: string) {
    ForegroundAt(s.store, udid, s.standing, ref, p)
  }

  /** The untagged entries are those of the user they should stand for: the foreground user when one is remembered. */
  ghost predicate Ordered(s: Session, udid: string) {
    Foreground(s.store, udid, s.standing)
  }

  predicate Linked(s: Session) {
    s.user == s.standing || s.user == DEFAULT_USER_ID
  }

  lemma SwitchSafeAt(s: Session, cur: Int32, outcome: Outcome, after: Store, udid: string, ref: ProfileRef, p: string)
    requires Linked(s) && cur != s.user && SwitchResult(s.store, after, udid, s.user, cur, outcome)
    requires CleanRef(ref) && Clean(p) && InOrderAt(s, udid, ref, p)
    ensures ForegroundAt(after, udid, cur, ref, p) <==> SafeAt(s, Switch(cur, outcome), udid, ref, p)
  {
    hide KeyOf, IsLocal, CleanRef;
    TaggedSame(s.store, after, udid);
    if Owns(s.store, udid, ref, p, cur) {
      assert SameAt(s.store, after, KeyOf(ref, p, cur));
    }
  }

  lemma LearnSafeAt(s: Session, cur: Int32, udid: string, ref: ProfileRef, p: string)
    requires InOrderAt(s, udid, ref, p)
    ensures ForegroundAt(s.store, udid, cur, ref, p) <==> OwnAlike(s.store, udid, s.standing, cur, ref, p)
  {
    hide KeyOf, IsLocal;
  }

  /** What a put, a deletion or a removal does to one property, in terms of its owners. */
  lemma PutSafeAt(s: Session, user: Int32, values: map<Property, string>, after: Store, udid: string, ref: ProfileRef,
                  p: string)
    requires Linked(s) && LocalValues(values, user, udid) && PutTo(s.store, after, values, user, s.user)
    requires CleanRef(ref) && Clean(p) && InOrderAt(s, udid, ref, p)
    ensures ForegroundAt(after, udid, s.standing, ref, p) <==> SafeAt(s, Put(user, values), udid, ref, p)
  {
    hide KeyOf, IsLocal, CleanRef, IsWritten;
    var k := KeyOf(ref, p, DEFAULT_USER_ID);
    forall v: Int32 | v != DEFAULT_USER_ID
      ensures Owns(after, udid, ref, p, v) <==> Owns(s.store, udid, ref, p, v) || ((ref, p) in values && v == user)
    {
      assert if (ref, p) in values && v == user then KeyOf(ref, p, v) in after
          else SameAt(s.store, after, KeyOf(ref, p, v));
    }
    assert if (ref, p) in values && Reaches(user, s.user, DEFAULT_USER_ID)
        then k in after && after[k] == values[(ref, p)]
           else SameAt(s.store, after, k);
    assert if (ref, p) in values && Reaches(user, s.user, s.standing)
           then KeyOf(ref, p, s.standing) in after && after[KeyOf(ref, p, s.standing)] == values[(ref, p)]
           else SameAt(s.store, after, KeyOf(ref, p, s.standing));
    if (ref, p) !in values {
      assert ForegroundAt(after, udid, s.standing, ref, p);
    } else if user == DEFAULT_USER_ID {
      assert ForegroundAt(after, udid, s.standing, ref, p) <==>
          Harmless(s.store, udid, s.standing, ref, p, values[(ref, p)]);
    } else if user == s.user {
      assert ForegroundAt(after, udid, s.standing, ref, p);
    } else if user == s.standing {
      assert Owns(after, udid, ref, p, user);
    } else {
      assert Owns(after, udid, ref, p, user);
    }
  }

  lemma DeleteSafeAt(s: Session, user: Int32, props: set<Property>, after: Store, udid: string, ref: ProfileRef,
                     p: string)
    requires Linked(s) && DeletedFrom(s.store, after, props, user, s.user)
    requires CleanRef(ref) && Clean(p) && InOrderAt(s, udid, ref, p)
    ensures ForegroundAt(after, udid, s.standing, ref, p) <==> SafeAt(s, Delete(user, props), udid, ref, p)
  {
    hide KeyOf, IsLocal, CleanRef, IsWritten;
    var k := KeyOf(ref, p, DEFAULT_USER_ID);
    forall v: Int32 | v != DEFAULT_USER_ID
      ensures Owns(after, udid, ref, p, v) <==> Owns(s.store, udid, ref, p, v) && !((ref, p) in props && v == user)
    {
      assert if (ref, p) in props && v == user then KeyOf(ref, p, v) !in after
          else SameAt(s.store, after, KeyOf(ref, p, v));
    }
    assert if (ref, p) in props && Reaches(user, s.user, DEFAULT_USER_ID) then k !in after
        else SameAt(s.store, after, k);
    assert if (ref, p) in props && Reaches(user, s.user, s.standing) then KeyOf(ref, p, s.standing) !in after
           else SameAt(s.store, after, KeyOf(ref, p, s.standing));
  }

  lemma RemoveUserSafeAt(s: Session, user: Int32, after: Store, udid: string, ref: ProfileRef, p: string)
    requires user != DEFAULT_USER_ID && UserRemovedFrom(s.store, after, udid, user)
    requires CleanRef(ref) && Clean(p) && InOrderAt(s, udid, ref, p)
    ensures ForegroundAt(after, udid, s.standing, ref, p) <==> SafeAt(s, RemoveUser(user), udid, ref, p)
  {
    hide KeyOf, IsLocal, CleanRef;
    forall v: Int32 | v != DEFAULT_USER_ID
      ensures Owns(after, udid, ref, p, v) <==> Owns(s.store, udid, ref, p, v) && v != user
    {
      assert if v == user && Owns(s.store, udid, ref, p, v) then KeyOf(ref, p, v) !in after
             else SameAt(s.store, after, KeyOf(ref, p, v));
    }
    assert SameAt(s.store, after, KeyOf(ref, p, DEFAULT_USER_ID));
    assert s.standing != user ==> SameAt(s.store, after, KeyOf(ref, p, s.standing));
  }

  lemma StepSafeAt(s: Session, step: Step, after: Store, udid: string, ref: ProfileRef, p: string)
    requires Linked(s) && StoreStep(s, step, after, udid) && CleanRef(ref) && Clean(p) && InOrderAt(s, udid, ref, p)
    ensures InOrderAt(Next(s, step, after, udid), udid, ref, p) <==> SafeAt(s, step, udid, ref, p)
  {
    hide ForegroundAt, OwnAlike, SoleOwner, Harmless, HasUntagged, CleanRef, SwitchResult, PutTo, DeletedFrom,
      LocalValues, UserRemovedFrom, OwnedProperties, StillLoose;
    match step
    case Switch(cur, outcome) =>
      if cur != s.user {
        SwitchSafeAt(s, cur, outcome, after, udid, ref, p);
      }
    case Restart =>
    case Learn(cur) => LearnSafeAt(s, cur, udid, ref, p);
    case Put(user, values) => PutSafeAt(s, user, values, after, udid, ref, p);
    case Delete(user, props) => DeleteSafeAt(s, user, props, after, udid, ref, p);
    case RemoveUser(user) => RemoveUserSafeAt(s, user, after, udid, ref, p);
  }

  /** A step over a store in order keeps it in order if and only if it is safe there. */
  lemma StepSafeExactly(s: Session, step: Step, after: Store, udid: string)
    requires Linked(s) && StoreStep(s, step, after, udid) && Ordered(s, udid)
    ensures Ordered(Next(s, step, after, udid), udid) <==> Safe(s, step, udid)
    ensures Linked(Next(s, step, after, udid))
  {
    hide ForegroundAt, SafeAt, CleanRef, StoreStep, StillLoose, OwnedProperties;
    forall ref, p | CleanRef(ref) && Clean(p)
      ensures InOrderAt(Next(s, step, after, udid), udid, ref, p) <==> SafeAt(s, step, udid, ref, p)
    {
      assert InOrderAt(s, udid, ref, p);
      StepSafeAt(s, step, after, udid, ref, p);
    }
  }

  /** A run of switches complete or not, restarts, learned users, puts, deletions and user removals that begins in
      order is in order throughout if and only if each of its steps is safe where it is taken. */
  lemma {:induction false} ForegroundThroughout(states: seq<Session>, steps: seq<Step>, udid: string)
    requires IsRun(states, steps, udid) && Linked(states[0]) && Ordered(states[0], udid)
    ensures (forall i | 0 <= i <= |steps| :: Ordered(states[i], udid)) <==>
            (forall i | 0 <= i < |steps| :: Safe(states[i], steps[i], udid))
    ensures forall i | 0 <= i <= |steps| :: (forall j | 0 <= j < i :: Ordered(states[j], udid)) ==> Linked(states[i])
    decreases |steps|
  {
    hide Next, StoreStep, Safe, Ordered;
    if steps != [] {
      var n := |steps| - 1;
      ForegroundThroughout(states[..n + 1], steps[..n], udid);
      if forall i | 0 <= i <= n :: Ordered(states[i], udid) {
        assert states[..n + 1][n] == states[n];
        StepSafeExactly(states[n], steps[n], states[n + 1].store, udid);
      }
    }
  }

  /** A switch that saves but does not delete puts the arriving user in the foreground exactly when no property owned by
      others alone has an untagged entry. */
  lemma SavedForegroundExactly(before: Store, after: Store, udid: string, cur: Int32)
    requires SavedFor(before, after, udid, cur)
    ensures Foreground(after, udid, cur) <==>
            forall ref, p :: CleanRef(ref) && Clean(p) ==> !Bystander(before, udid, cur, cur, ref, p)
  {
    hide KeyOf, IsLocal, CleanRef, Owns;
    SavedIsSwitch(before, after, udid, cur);
    SwitchForegroundExactly(before, after, udid, cur, cur);
  }

  lemma SavedIsSwitch(before: Store, after: Store, udid: string, cur: Int32)
    requires SavedFor(before, after, udid, cur)
    ensures SwitchedTo(before, after, udid, cur, cur)
  {
    hide KeyOf, IsLocal, CleanRef;
  }

  /** A deletion for no user keeps the foreground exactly when the foreground user owns none of the properties. */
  lemma PlainDeleteForegroundExactly(s: Store, t: Store, udid: string, props: set<Property>, u: Int32, fg: Int32)
    requires Foreground(s, udid, u) && DeletedFrom(s, t, props, DEFAULT_USER_ID, fg)
             && (fg == u || fg == DEFAULT_USER_ID)
    ensures Foreground(t, udid, u) <==>
            forall ref, p :: CleanRef(ref) && Clean(p) && (ref, p) in props ==> !Owns(s, udid, ref, p, u)
  {
    hide KeyOf, CleanRef, IsLocal, Owns, DeletedFrom, OwnedProperties;
    var session := Session(s, fg, u, {}, true, iset{});
    StepSafeExactly(session, Delete(DEFAULT_USER_ID, props), t, udid);
  }

  /** The removal of the foreground user keeps the foreground exactly when no other user owns a property it owned. */
  lemma RemoveUserForegroundExactly(s: Store, t: Store, udid: string, u: Int32)
    requires Foreground(s, udid, u) && u != DEFAULT_USER_ID && UserRemovedFrom(s, t, udid, u)
    ensures Foreground(t, udid, u) <==>
            forall ref, p :: CleanRef(ref) && Clean(p) && Owns(s, udid, ref, p, u) ==> SoleOwner(s, udid, u, ref, p)
  {
    hide KeyOf, CleanRef, IsLocal, Owns, UserRemovedFrom, OwnedProperties, SoleOwner;
    var session := Session(s, u, u, {}, true, iset{});
    StepSafeExactly(session, RemoveUser(u), t, udid);
  }

  // ---------------------------------------------------------------- sessions in order

  /** Switches that complete, and puts and deletions made for a user. */
  predicate Orderly(step: Step) {
    match step
    case Switch(_, outcome) => outcome.Completed?
    case Put(user, _) => user != DEFAULT_USER_ID
    case Delete(user, _) => user != DEFAULT_USER_ID
    case _ => false
  }

  /** A store in order under its foreground user. Its plain properties have an untagged entry and no owner. */
  ghost function InPlace(store: Store, user: Int32, udid: string): Session {
    Opened(store, user, udid).(mirrored := true)
  }

  lemma InPlaceInv(store: Store, user: Int32, udid: string)
    requires Foreground(store, udid, user)
    ensures Inv(InPlace(store, user, udid), udid)
  {
    hide KeyOf, IsLocal, CleanRef, Owns;
    forall ref, p | CleanRef(ref) && Clean(p) && (ref, p) !in InPlace(store, user, udid).loose
      ensures KeptAt(InPlace(store, user, udid), udid, ref, p)
    {
      assert ForegroundAt(store, udid, user, ref, p);
    }
  }

  lemma OrderlyStep(s: Session, step: Step, after: Store, udid: string)
    requires s.mirrored && s.unsettled <= {s.user} && Orderly(step)
    ensures var s' := Next(s, step, after, udid); s'.mirrored && s'.unsettled <= {s'.user} && s'.loose <= s.loose
  {
    hide OwnedProperties;
  }

  lemma {:induction false} OrderlyRun(states: seq<Session>, steps: seq<Step>, udid: string)
    requires IsRun(states, steps, udid) && states[0].mirrored && states[0].unsettled <= {states[0].user}
    requires forall step :: step in steps ==> Orderly(step)
    ensures var s := states[|steps|]; s.mirrored && s.unsettled <= {s.user} && s.loose <= states[0].loose
    decreases |steps|
  {
    hide Next, StoreStep, Orderly;
    if steps != [] {
      var n := |steps| - 1;
      OrderlyRun(states[..n + 1], steps[..n], udid);
      OrderlyStep(states[n], steps[n], states[n + 1].store, udid);
    }
  }

  /** Within one session over a store in order, completed switches and puts and deletions for any users keep every
      property in place, except that a property without an owner at the start may get one who is not in the
      foreground. */
  lemma OrderlyForeground(states: seq<Session>, steps: seq<Step>, udid: string, store: Store, user: Int32)
    requires IsRun(states, steps, udid) && Foreground(store, udid, user) && states[0] == InPlace(store, user, udid)
    requires forall step :: step in steps ==> Orderly(step)
    ensures var s := states[|steps|];
            forall ref, p ::
              CleanRef(ref) && Clean(p) && (HasUntagged(store, ref, p) ==> Owns(store, udid, ref, p, user)) ==>
              ForegroundAt(s.store, udid, s.user, ref, p)
  {
    hide KeyOf, Next, StoreStep, Orderly, CleanRef, Foreground, Inv, ForegroundAt, Owns;
    InPlaceInv(store, user, udid);
    RunKept(states, steps, udid);
    OrderlyRun(states, steps, udid);
    var s := states[|steps|];
    forall ref, p | CleanRef(ref) && Clean(p) && (HasUntagged(store, ref, p) ==> Owns(store, udid, ref, p, user))
      ensures ForegroundAt(s.store, udid, s.user, ref, p)
    {
      assert (ref, p) !in states[0].loose;
      UnsuspectInPlace(s, udid, ref, p);
    }
  }

  /** Switches alone keep a store in order, whatever plain properties it holds. */
  lemma {:induction false} SwitchesKeepForeground(stores: seq<Store>, users: seq<Int32>, udid: string)
    requires |stores| == |users| > 0 && Foreground(stores[0], udid, users[0])
    requires forall i | 0 <= i < |stores| - 1 :: SwitchedTo(stores[i], stores[i + 1], udid, users[i], users[i + 1])
    ensures Foreground(stores[|stores| - 1], udid, users[|users| - 1])
  {
    hide Foreground, SwitchedTo;
    if |stores| > 1 {
      var n := |stores| - 1;
      SwitchesKeepForeground(stores[..n], users[..n], udid);
      SwitchKeepsForeground(stores[n - 1], stores[n], udid, users[n - 1], users[n]);
    }
  }

  // ---------------------------------------------------------------- a restart under another user

  /** User `a` stores a property and the service restarts under `b`. */
  ghost function RestartSteps(ref: ProfileRef, p: string, v: string, a: Int32, b: Int32): seq<Step> {
    [Switch(a, Completed), Put(a, map[(ref, p) := v]), Restart, Switch(b, Completed)]
  }

  ghost function BothEntries(ref: ProfileRef, p: string, v: string, a: Int32): Store {
    map[KeyOf(ref, p, a) := v, KeyOf(ref, p, DEFAULT_USER_ID) := v]
  }

  lemma BothAt(ref: ProfileRef, p: string, v: string, a: Int32, r: ProfileRef, q: string, u: Int32)
    requires CleanRef(ref) && Clean(p) && CleanRef(r) && Clean(q)
    ensures KeyOf(r, q, u) in BothEntries(ref, p, v, a) <==> r == ref && q == p && (u == a || u == DEFAULT_USER_ID)
    ensures KeyOf(r, q, u) in BothEntries(ref, p, v, a) ==> BothEntries(ref, p, v, a)[KeyOf(r, q, u)] == v
  {
    hide KeyOf, CleanRef;
    if KeyOf(r, q, u) == KeyOf(ref, p, a) {
      KeyInjective(r, q, u, ref, p, a);
    }
    if KeyOf(r, q, u) == KeyOf(ref, p, DEFAULT_USER_ID) {
      KeyInjective(r, q, u, ref, p, DEFAULT_USER_ID);
    }
  }

  lemma LocalKey(udid: string, service: string, p: string, u: Int32)
    ensures IsLocal(KeyOf(Svr(udid, service), p, u), udid)
  {
    hide ToString;
    var k, prefix := KeyOf(Svr(udid, service), p, u), SVR_PREFIX + SEPARATOR + udid;
    assert k[..|prefix|] == prefix;
    assert OccursAt(k, prefix, 0);
  }

  lemma FirstPut(udid: string, service: string, p: string, v: string, a: Int32)
    requires Clean(udid) && Clean(service) && Clean(p) && a != DEFAULT_USER_ID
    ensures var ref := Svr(udid, service);
            LocalValues(map[(ref, p) := v], a, udid)
                && PutTo(map[], BothEntries(ref, p, v, a), map[(ref, p) := v], a, a)
  {
    hide KeyOf, IsLocal;
    var ref := Svr(udid, service);
    LocalKey(udid, service, p, a);
    forall r: ProfileRef, q, u: Int32 | CleanRef(r) && Clean(q)
      ensures KeyOf(r, q, u) in BothEntries(ref, p, v, a) <==> r == ref && q == p && (u == a || u == DEFAULT_USER_ID)
      ensures KeyOf(r, q, u) in BothEntries(ref, p, v, a) ==> BothEntries(ref, p, v, a)[KeyOf(r, q, u)] == v
    {
      BothAt(ref, p, v, a, r, q, u);
    }
    assert Written(KeyOf(ref, p, a), ref, p, a);
    assert Written(KeyOf(ref, p, DEFAULT_USER_ID), ref, p, DEFAULT_USER_ID);
  }

  lemma SecondSwitch(udid: string, service: string, p: string, v: string, a: Int32, b: Int32)
    requires Clean(udid) && Clean(service) && Clean(p) && a != DEFAULT_USER_ID && b != DEFAULT_USER_ID && a != b
    ensures var ref := Svr(udid, service); var t := BothEntries(ref, p, v, a);
            SwitchedTo(t, t, udid, DEFAULT_USER_ID, b) && !ForegroundAt(t, udid, b, ref, p)
  {
    hide KeyOf, IsLocal;
    var ref := Svr(udid, service);
    var t := BothEntries(ref, p, v, a);
    LocalKey(udid, service, p, a);
    forall r: ProfileRef, q | CleanRef(r) && Clean(q) ensures !Owns(t, udid, r, q, b) {
      BothAt(ref, p, v, a, r, q, b);
    }
    assert Owns(t, udid, ref, p, a);
  }

  lemma ShownToOther(ref: ProfileRef, p: string, v: string, a: Int32, b: Int32)
    requires CleanRef(ref) && Clean(p) && p != "" && a != DEFAULT_USER_ID && b > 0 && a != b
    requires Readable(ref, p, DEFAULT_USER_ID)
    ensures PropertiesView(BothEntries(ref, p, v, a), b) == map[p := v]
  {
    hide KeyOf, GetProfileProperty, GetUserIdFromDbKey, View;
    var t := BothEntries(ref, p, v, a);
    UserRecovered(ref, p, a);
    UserRecovered(ref, p, DEFAULT_USER_ID);
    PropertyRecovered(ref, p, DEFAULT_USER_ID, DEFAULT_USER_ID);
    assert OwnedBy(t, b) == {};
    assert OwnedBy(t, DEFAULT_USER_ID) == {KeyOf(ref, p, DEFAULT_USER_ID)};
    ViewIs(t, {KeyOf(ref, p, DEFAULT_USER_ID)}, map[p := v]);
  }

  /** On an empty device: what user `a` stored for itself alone is shown to `b` when the service restarts under `b`. */
  lemma RestartShowsOthers(udid: string, service: string, p: string, v: string, a: Int32, b: Int32)
    requires Clean(udid) && Clean(service) && Clean(p) && p != "" && a > 0 && b > 0 && a != b
    requires Readable(Svr(udid, service), p, DEFAULT_USER_ID)
    ensures var ref := Svr(udid, service); var t := BothEntries(ref, p, v, a);
            exists states: seq<Session> :: IsRun(states, RestartSteps(ref, p, v, a, b), udid)
              && states[0] == InPlace(map[], DEFAULT_USER_ID, udid) && states[4].store == t && states[4].user == b
              && !Foreground(t, udid, b) && PropertiesView(t, b) == map[p := v]
  {
    hide KeyOf, IsLocal, PutTo, LocalValues, SwitchedTo, PropertiesView, ForegroundAt, OwnedProperties,
        BothEntries, InPlace;
    var ref := Svr(udid, service);
    var t, steps := BothEntries(ref, p, v, a), RestartSteps(ref, p, v, a, b);
    FirstPut(udid, service, p, v, a);
    SecondSwitch(udid, service, p, v, a, b);
    ShownToOther(ref, p, v, a, b);
    EmptySwitch(udid, a);
    var s0 := InPlace(map[], DEFAULT_USER_ID, udid);
    InPlaceFields(udid);
    var s1 := Next(s0, steps[0], map[], udid);
    var s2 := Next(s1, steps[1], t, udid);
    var s3 := Next(s2, steps[2], t, udid);
    var s4 := Next(s3, steps[3], t, udid);
    assert IsRun([s0, s1, s2, s3, s4], steps, udid);
  }

  lemma InPlaceFields(udid: string)
    ensures var s := InPlace(map[], DEFAULT_USER_ID, udid); s.store == map[] && s.user == DEFAULT_USER_ID
  {
  }

  lemma EmptySwitch(udid: string, a: Int32)
    ensures SwitchedTo(map[], map[], udid, DEFAULT_USER_ID, a)
  {
    hide KeyOf, IsLocal;
  }
}
