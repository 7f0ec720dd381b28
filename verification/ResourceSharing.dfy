/** Sharing a resource: the difference the editor sends and the schemas the server checks it with
    (public/apps/resource-sharing/resource-sharing-panel.tsx,
    server/routes/resource_access_management_routes.ts). */
module ResourceSharing {
  import opened Wrappers

  datatype Kind = Users | Roles | BackendRoles

  /** Each list may be missing. */
  datatype Recipients = Recipients(
    users: Option<seq<string>>,
    roles: Option<seq<string>>,
    backendRoles: Option<seq<string>>)
  {
    function Get(kind: Kind): Option<seq<string>> {
      match kind
      case Users => users
      case Roles => roles
      case BackendRoles => backendRoles
    }

    function Put(kind: Kind, names: seq<string>): Recipients {
      match kind
      case Users => this.(users := Some(names))
      case Roles => this.(roles := Some(names))
      case BackendRoles => this.(backendRoles := Some(names))
    }
  }

  const NOBODY := Recipients(None, None, None)

  type ShareWith = map<string, Recipients>

  const KINDS := [Users, Roles, BackendRoles]

  /** `sw?.[level]?.[kind] || []` */
  function ListOf(sw: ShareWith, level: string, kind: Kind): seq<string> {
    if level in sw && sw[level].Get(kind).Some? then sw[level].Get(kind).value else []
  }

  function SetOf(sw: ShareWith, level: string, kind: Kind): set<string> {
    set name | name in ListOf(sw, level, kind)
  }

  /** `[...new Set(names)]`: first occurrences, in order. */
  function Distinct(names: seq<string>): (r: seq<string>)
    ensures forall n :: n in r <==> n in names
    ensures |r| <= |names|
  {
    if names == [] then []
    else
      var front := Distinct(names[..|names| - 1]);
      var last := names[|names| - 1];
      if last in front then front else front + [last]
  }

  /** `names.filter((x) => !others.has(x))` */
  function NotIn(names: seq<string>, others: set<string>): (r: seq<string>)
    ensures forall n :: n in r <==> n in names && n !in others
  {
    if names == [] then []
    else (if names[0] !in others then [names[0]] else []) + NotIn(names[1..], others)
  }

  /** The names `to` has and `from` lacks. */
  function Gained(from: ShareWith, to: ShareWith, level: string, kind: Kind): seq<string> {
    NotIn(Distinct(ListOf(to, level, kind)), SetOf(from, level, kind))
  }

  function OrAbsent(names: seq<string>): Option<seq<string>> {
    if names == [] then None else Some(names)
  }

  /** What the first `k` kinds gain at one level; an empty list is left out. */
  function GainedAt(from: ShareWith, to: ShareWith, level: string, k: nat): Recipients {
    Recipients(
      if k > 0 then OrAbsent(Gained(from, to, level, Users)) else None,
      if k > 1 then OrAbsent(Gained(from, to, level, Roles)) else None,
      if k > 2 then OrAbsent(Gained(from, to, level, BackendRoles)) else None)
  }

  function Levels(prev: ShareWith, next: ShareWith): set<string> {
    prev.Keys + next.Keys
  }

  /** Only levels at which something was gained appear at all. */
  function GainedOver(from: ShareWith, to: ShareWith, levels: set<string>): ShareWith {
    map level | level in levels && GainedAt(from, to, level, 3) != NOBODY :: GainedAt(from, to, level, 3)
  }

  predicate HasRecipients(r: Recipients) {
    || (r.users.Some? && r.users.value != [])
    || (r.roles.Some? && r.roles.value != [])
    || (r.backendRoles.Some? && r.backendRoles.value != [])
  }

  predicate IsEmpty(sw: ShareWith) {
    forall level :: level in sw ==> !HasRecipients(sw[level])
  }

  function OrNone(sw: ShareWith): Option<ShareWith> {
    if IsEmpty(sw) then None else Some(sw)
  }

  datatype Diff = Diff(add: Option<ShareWith>, revoke: Option<ShareWith>)

  function DiffOf(prev: ShareWith, next: ShareWith): Diff {
    var levels := Levels(prev, next);
    Diff(OrNone(GainedOver(prev, next, levels)), OrNone(GainedOver(next, prev, levels)))
  }

  /** `sw[level] = sw[level] || {}; sw[level][kind] = [...(sw[level][kind] || []), ...names]` */
  function Extend(sw: ShareWith, level: string, kind: Kind, names: seq<string>): ShareWith {
    var at := if level in sw then sw[level] else NOBODY;
    var had := if at.Get(kind).Some? then at.Get(kind).value else [];
    sw[level := at.Put(kind, had + names)]
  }

  method DiffShareWith(prev: ShareWith, next: ShareWith) returns (diff: Diff)
    ensures diff == DiffOf(prev, next)
  {
    NothingGainedOverNothing(prev, next);
    NothingGainedOverNothing(next, prev);
    hide GainedOver;
    hide Levels;
    hide OrNone;
    var add: ShareWith, revoke: ShareWith := map[], map[];
    var allLevels := Levels(prev, next);
    var todo := allLevels;
    while todo != {}
      invariant todo <= allLevels
      invariant add == GainedOver(prev, next, allLevels - todo) && revoke == GainedOver(next, prev, allLevels - todo)
      decreases |todo|
    {
      var level :| level in todo;
      ghost var done := allLevels - todo;
      assert done + {level} == allLevels - (todo - {level});
      add := AddLevel(add, prev, next, level, done);
      revoke := AddLevel(revoke, next, prev, level, done);
      todo := todo - {level};
    }
    assert allLevels - todo == allLevels;
    diff := Diff(OrNone(add), OrNone(revoke));
  }

  lemma NothingGainedOverNothing(from: ShareWith, to: ShareWith)
    ensures forall none: set<string> :: none == {} ==> GainedOver(from, to, none) == map[]
  {
    hide GainedAt;
  }

  /** The loop over the three kinds, for one level and one direction. */
  method AddLevel(sw: ShareWith, from: ShareWith, to: ShareWith, level: string, ghost done: set<string>)
    returns (out: ShareWith)
    requires sw == GainedOver(from, to, done) && level !in done
    ensures out == GainedOver(from, to, done + {level})
  {
    GainedOverStep(from, to, done, level);
    assert GainedAt(from, to, level, 0) == NOBODY;
    hide GainedOver;
    hide GainedAt;
    hide Gained;
    out := sw;
    for k := 0 to 3
      invariant out == PutLevel(sw, level, GainedAt(from, to, level, k))
    {
      var names := Gained(from, to, level, KINDS[k]);
      ExtendGained(sw, from, to, level, k);
      if names != [] {
        out := Extend(out, level, KINDS[k], names);
      }
    }
  }

  lemma GainedOverStep(from: ShareWith, to: ShareWith, done: set<string>, level: string)
    requires level !in done
    ensures level !in GainedOver(from, to, done)
    ensures GainedOver(from, to, done + {level})
         == PutLevel(GainedOver(from, to, done), level, GainedAt(from, to, level, 3))
  {
    hide GainedAt;
  }

  function PutLevel(sw: ShareWith, level: string, r: Recipients): ShareWith {
    if r == NOBODY then sw else sw[level := r]
  }

  lemma ExtendGained(sw: ShareWith, from: ShareWith, to: ShareWith, level: string, k: nat)
    requires k < 3 && level !in sw
    ensures var names := Gained(from, to, level, KINDS[k]);
            var before := PutLevel(sw, level, GainedAt(from, to, level, k));
            var after := PutLevel(sw, level, GainedAt(from, to, level, k + 1));
            after == if names == [] then before else Extend(before, level, KINDS[k], names)
  {
    hide Gained;
    var names := Gained(from, to, level, KINDS[k]);
    assert [] + names == names;
    assert KINDS[k] == if k == 0 then Users else if k == 1 then Roles else BackendRoles;
  }

  // ---- what the difference means ---------------------------------------------

  function SetIn(sw: Option<ShareWith>, level: string, kind: Kind): set<string> {
    if sw.None? then {} else SetOf(sw.value, level, kind)
  }

  /** Per level and kind, the collected list is the one gained. */
  lemma GainedOverList(from: ShareWith, to: ShareWith, level: string, kind: Kind)
    ensures ListOf(GainedOver(from, to, Levels(from, to)), level, kind) == Gained(from, to, level, kind)
  {
    if level !in Levels(from, to) {
      assert ListOf(to, level, kind) == [];
    }
    hide Gained;
  }

  lemma GainedIsDifference(from: ShareWith, to: ShareWith, level: string, kind: Kind, name: string)
    ensures name in Gained(from, to, level, kind) <==> name in SetOf(to, level, kind) - SetOf(from, level, kind)
  {
  }

  /** As sets: what one state has and the other lacks. */
  lemma GainedOverIsDifference(from: ShareWith, to: ShareWith, level: string, kind: Kind)
    ensures SetOf(GainedOver(from, to, Levels(from, to)), level, kind)
         == SetOf(to, level, kind) - SetOf(from, level, kind)
  {
    hide Gained;
    hide GainedOver;
    GainedOverList(from, to, level, kind);
    forall name
      ensures name in Gained(from, to, level, kind) <==> name in SetOf(to, level, kind) - SetOf(from, level, kind)
    {
      GainedIsDifference(from, to, level, kind, name);
    }
  }

  /** An absent part of the difference stands for no names at all. */
  lemma GainedOrNone(from: ShareWith, to: ShareWith, level: string, kind: Kind)
    ensures SetIn(OrNone(GainedOver(from, to, Levels(from, to))), level, kind)
         == SetOf(to, level, kind) - SetOf(from, level, kind)
  {
    hide GainedOver;
    GainedOverIsDifference(from, to, level, kind);
    NoRecipientsNoNames(GainedOver(from, to, Levels(from, to)), level, kind);
  }

  lemma NoRecipientsNoNames(sw: ShareWith, level: string, kind: Kind)
    ensures IsEmpty(sw) ==> SetOf(sw, level, kind) == {}
  {
    if IsEmpty(sw) && level in sw {
      assert !HasRecipients(sw[level]);
      assert ListOf(sw, level, kind) == [];
    }
  }

  lemma SomeRecipientsSomeName(sw: ShareWith) returns (level: string, kind: Kind)
    requires !IsEmpty(sw)
    ensures SetOf(sw, level, kind) != {}
  {
    level :| level in sw && HasRecipients(sw[level]);
    var r := sw[level];
    kind := if r.users.Some? && r.users.value != [] then Users
    else if r.roles.Some? && r.roles.value != [] then Roles else BackendRoles;
    var list := ListOf(sw, level, kind);
    assert list[0] in list;
    assert list[0] in SetOf(sw, level, kind);
  }

  /** Main result: revoking and adding what the difference says turns one state into the other,
      per level and kind, and the difference contains nothing superfluous. */
  lemma DiffIsExact(prev: ShareWith, next: ShareWith, level: string, kind: Kind)
    ensures var d := DiffOf(prev, next);
            var p, n := SetOf(prev, level, kind), SetOf(next, level, kind);
            var add, revoke := SetIn(d.add, level, kind), SetIn(d.revoke, level, kind);
            && (p - revoke) + add == n
            && add !! p
            && revoke <= p
            && revoke !! n
  {
    hide GainedOver;
    hide SetOf;
    GainedOrNone(prev, next, level, kind);
    GainedOrNone(next, prev, level, kind);
    assert Levels(prev, next) == Levels(next, prev);
  }

  /** No other pair that turns `prev` into `next` adds or revokes less. */
  lemma DiffIsMinimal(prev: ShareWith, next: ShareWith, level: string, kind: Kind,
                      add: set<string>, revoke: set<string>)
    requires (SetOf(prev, level, kind) - revoke) + add == SetOf(next, level, kind)
    ensures SetIn(DiffOf(prev, next).add, level, kind) <= add
    ensures SetIn(DiffOf(prev, next).revoke, level, kind) <= revoke
  {
    hide GainedOver;
    hide SetOf;
    GainedOrNone(prev, next, level, kind);
    GainedOrNone(next, prev, level, kind);
    assert Levels(prev, next) == Levels(next, prev);
    var p, n := SetOf(prev, level, kind), SetOf(next, level, kind);
    assert n <= p + add && p - n <= revoke;
  }

  ghost predicate SameSharing(prev: ShareWith, next: ShareWith) {
    forall level, kind :: SetOf(prev, level, kind) == SetOf(next, level, kind)
  }

  lemma SubsetIfNothingLeft(a: set<string>, b: set<string>)
    requires a - b == {}
    ensures a <= b
  {
    forall x | x in a
      ensures x in b
    {
      assert x !in a - b;
    }
  }

  lemma AbsentIffNothingGained(from: ShareWith, to: ShareWith)
    ensures OrNone(GainedOver(from, to, Levels(from, to))).None? <==>
            forall level, kind :: SetOf(to, level, kind) <= SetOf(from, level, kind)
  {
    hide GainedOver;
    hide SetOf;
    var sw := GainedOver(from, to, Levels(from, to));
    if IsEmpty(sw) {
      forall level, kind
        ensures SetOf(to, level, kind) <= SetOf(from, level, kind)
      {
        GainedOrNone(from, to, level, kind);
        assert SetOf(to, level, kind) - SetOf(from, level, kind) == {};
        SubsetIfNothingLeft(SetOf(to, level, kind), SetOf(from, level, kind));
      }
    } else {
      var level, kind := SomeRecipientsSomeName(sw);
      GainedOverIsDifference(from, to, level, kind);
    }
  }

  /** Nothing is sent exactly when the two states share with the same recipients. */
  lemma DiffAbsentIffSame(prev: ShareWith, next: ShareWith)
    ensures DiffOf(prev, next) == Diff(None, None) <==> SameSharing(prev, next)
  {
    hide GainedOver;
    hide SetOf;
    AbsentIffNothingGained(prev, next);
    AbsentIffNothingGained(next, prev);
    assert Levels(prev, next) == Levels(next, prev);
  }

  /** Going back is the same difference with the parts exchanged. */
  lemma DiffSwaps(prev: ShareWith, next: ShareWith)
    ensures DiffOf(next, prev) == Diff(DiffOf(prev, next).revoke, DiffOf(prev, next).add)
  {
    assert Levels(prev, next) == Levels(next, prev);
  }

  // ---- the editor and the server ---------------------------------------------

  datatype Mode = Create | Edit

  datatype Payload =
    | Share(resourceId: string, resourceType: string, shareWith: ShareWith)
    | Update(resourceId: string, resourceType: string, add: Option<ShareWith>, revoke: Option<ShareWith>)

  function Clone(sw: Option<ShareWith>): ShareWith {
    if sw.Some? then sw.value else map[]
  }

  /** The submit button's condition, apart from a submission already under way. */
  predicate CanSubmit(mode: Mode, original: ShareWith, working: ShareWith) {
    var diff := DiffOf(original, working);
    var hasChanges := if mode.Create? then exists level :: level in working && HasRecipients(working[level])
                      else diff.add.Some? || diff.revoke.Some?;
    var isInvalid := exists level :: level in working && !HasRecipients(working[level]);
    hasChanges && !isInvalid
  }

  /** What `handleSubmit` sends, or None where it returns without sending. */
  method HandleSubmit(mode: Mode, resourceId: string, resourceType: string, shareWith: Option<ShareWith>,
                      working: ShareWith)
    returns (payload: Option<Payload>)
    ensures payload == Submission(mode, resourceId, resourceType, shareWith, working)
    ensures CanSubmit(mode, Clone(shareWith), working) ==>
              payload.Some? && (BodySchema(payload.value) <==> resourceId != "" && resourceType != "")
    ensures mode.Edit? ==> (payload == None <==> SameSharing(Clone(shareWith), working))
    ensures mode.Create? ==> payload == Some(Share(resourceId, resourceType, working))
    ensures mode.Edit? && payload.Some? ==>
              && payload.value.Update?
              && payload.value.resourceId == resourceId && payload.value.resourceType == resourceType
              && forall level, kind ::
                   SetOf(working, level, kind) == (SetOf(Clone(shareWith), level, kind)
                                                   - SetIn(payload.value.revoke, level, kind))
                   + SetIn(payload.value.add, level, kind)
  {
    hide DiffOf;
    hide CanSubmit;
    hide BodySchema;
    hide SameSharing;
    hide SetIn;
    hide SetOf;
    if CanSubmit(mode, Clone(shareWith), working) {
      SubmissionsFitSchema(mode, resourceId, resourceType, shareWith, working);
    }
    DiffAbsentIffSame(Clone(shareWith), working);
    forall level, kind {
      DiffIsExact(Clone(shareWith), working, level, kind);
    }
    if mode.Create? {
      return Some(Share(resourceId, resourceType, working));
    }
    var diff := DiffShareWith(Clone(shareWith), working);
    if diff.add.None? && diff.revoke.None? {
      return None;
    }
    return Some(Update(resourceId, resourceType, diff.add, diff.revoke));
  }

  function Submission(mode: Mode, resourceId: string, resourceType: string, shareWith: Option<ShareWith>,
                      working: ShareWith): Option<Payload> {
    if mode.Create? then Some(Share(resourceId, resourceType, working))
    else
      var diff := DiffOf(Clone(shareWith), working);
      if diff == Diff(None, None) then None else Some(Update(resourceId, resourceType, diff.add, diff.revoke))
  }

  /** An empty list is present as far as the schema is concerned. */
  predicate RecipientsSchema(r: Recipients) {
    r.users.Some? || r.roles.Some? || r.backendRoles.Some?
  }

  predicate ShareWithSchema(sw: ShareWith) {
    forall level :: level in sw ==> RecipientsSchema(sw[level])
  }

  predicate MaybeShareWithSchema(sw: Option<ShareWith>) {
    sw.Some? ==> ShareWithSchema(sw.value)
  }

  predicate BodySchema(payload: Payload) {
    && payload.resourceId != "" && payload.resourceType != ""
    && match payload
       case Share(_, _, sw) => ShareWithSchema(sw) && |sw| > 0
       case Update(_, _, add, revoke) =>
         MaybeShareWithSchema(add) && MaybeShareWithSchema(revoke) && (add.Some? || revoke.Some?)
  }

  lemma GainedFitsSchema(from: ShareWith, to: ShareWith, levels: set<string>)
    ensures ShareWithSchema(GainedOver(from, to, levels))
  {
    hide Gained;
  }

  lemma NoEmptyLevelFitsSchema(sw: ShareWith)
    requires forall level :: level in sw ==> HasRecipients(sw[level])
    ensures ShareWithSchema(sw)
  {
  }

  /** Main result: whatever the editor lets the user submit, the server's schema accepts, for
      any non-empty resource id and type. */
  lemma SubmissionsFitSchema(mode: Mode, resourceId: string, resourceType: string, shareWith: Option<ShareWith>,
                             working: ShareWith)
    requires CanSubmit(mode, Clone(shareWith), working)
    ensures var payload := Submission(mode, resourceId, resourceType, shareWith, working);
            payload.Some? && (BodySchema(payload.value) <==> resourceId != "" && resourceType != "")
  {
    hide GainedOver;
    hide HasRecipients;
    hide RecipientsSchema;
    hide IsEmpty;
    var original := Clone(shareWith);
    var levels := Levels(original, working);
    GainedFitsSchema(original, working, levels);
    GainedFitsSchema(working, original, levels);
    if mode.Create? {
      NoEmptyLevelFitsSchema(working);
      var level :| level in working && HasRecipients(working[level]);
      assert level in working.Keys;
    }
  }

  predicate NoneTwice(names: seq<string>) {
    forall i, j :: 0 <= i < j < |names| ==> names[i] != names[j]
  }

  lemma {:induction false} DistinctNamesNoneTwice(names: seq<string>)
    ensures NoneTwice(Distinct(names))
  {
    if names == [] {
    } else {
      DistinctNamesNoneTwice(names[..|names| - 1]);
    }
  }

  lemma {:induction false} FilterNamesNoneTwice(names: seq<string>, others: set<string>)
    requires NoneTwice(names)
    ensures NoneTwice(NotIn(names, others))
  {
    if names == [] {
    } else {
      var rest := names[1..];
      assert forall i :: 0 <= i < |rest| ==> rest[i] == names[i + 1];
      FilterNamesNoneTwice(rest, others);
      assert names[0] !in rest;
      assert forall i :: 0 <= i < |NotIn(rest, others)| ==> NotIn(rest, others)[i] in rest;
    }
  }

  /** Nobody is named twice in a difference, however often the editor's lists name them. */
  lemma DiffNamesNoneTwice(prev: ShareWith, next: ShareWith, level: string, kind: Kind)
    ensures var d := DiffOf(prev, next);
            && (d.add.Some? ==> NoneTwice(ListOf(d.add.value, level, kind)))
            && (d.revoke.Some? ==> NoneTwice(ListOf(d.revoke.value, level, kind)))
  {
    hide GainedOver;
    GainedOverList(prev, next, level, kind);
    GainedOverList(next, prev, level, kind);
    assert Levels(prev, next) == Levels(next, prev);
    DistinctNamesNoneTwice(ListOf(next, level, kind));
    DistinctNamesNoneTwice(ListOf(prev, level, kind));
    FilterNamesNoneTwice(Distinct(ListOf(next, level, kind)), SetOf(prev, level, kind));
    FilterNamesNoneTwice(Distinct(ListOf(prev, level, kind)), SetOf(next, level, kind));
  }

  // ---- the button and the schema in their own words -------------------------------------------

  /** Somebody is a recipient at this level. */
  ghost predicate Reached(sw: ShareWith, level: string) {
    exists kind :: SetOf(sw, level, kind) != {}
  }

  lemma ReachedIffRecipients(sw: ShareWith, level: string)
    requires level in sw
    ensures Reached(sw, level) <==> HasRecipients(sw[level])
  {
    var r := sw[level];
    if HasRecipients(r) {
      var kind := if r.users.Some? && r.users.value != [] then Users
      else if r.roles.Some? && r.roles.value != [] then Roles else BackendRoles;
      var list := ListOf(sw, level, kind);
      assert list[0] in SetOf(sw, level, kind);
    }
    if Reached(sw, level) {
      var kind :| SetOf(sw, level, kind) != {};
      var name :| name in SetOf(sw, level, kind);
      assert name in ListOf(sw, level, kind);
    }
  }

  /** Main result: the button is enabled if and only if no listed level is without recipients
      and there is something to send: a recipient in a new sharing, a difference in an old one. */
  lemma CanSubmitIff(mode: Mode, original: ShareWith, working: ShareWith)
    ensures CanSubmit(mode, original, working) <==>
            && (forall level :: level in working ==> Reached(working, level))
            && (if mode.Create? then exists level :: level in working && Reached(working, level)
                else !SameSharing(original, working))
  {
    hide HasRecipients;
    hide Reached;
    hide DiffOf;
    hide SameSharing;
    DiffAbsentIffSame(original, working);
    forall level | level in working
      ensures Reached(working, level) <==> HasRecipients(working[level])
    {
      ReachedIffRecipients(working, level);
    }
  }

  /** A level that says nothing about anybody, not even with an empty list. */
  predicate Silent(r: Recipients) {
    r == Recipients(None, None, None)
  }

  /** What the server refuses: a missing id or type, no level at all, a level that says nothing,
      or an update that neither adds nor revokes. */
  lemma SchemaRefusesIff(payload: Payload)
    ensures !BodySchema(payload) <==>
            || payload.resourceId == "" || payload.resourceType == ""
            || match payload
               case Share(_, _, sw) => sw == map[] || exists level :: level in sw && Silent(sw[level])
               case Update(_, _, add, revoke) =>
                 || (add.None? && revoke.None?)
                 || (add.Some? && exists level :: level in add.value && Silent(add.value[level]))
                 || (revoke.Some? && exists level :: level in revoke.value && Silent(revoke.value[level]))
  {
    forall r: Recipients
      ensures RecipientsSchema(r) <==> !Silent(r)
    {
    }
    hide RecipientsSchema;
    hide Silent;
  }
}
