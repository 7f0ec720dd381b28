/** A role's index permissions between the backend's form and the editor's
    (public/apps/configuration/panels/role-edit/index-permission-panel.tsx). */
module IndexPermissions {

  datatype ComboBoxOption = ComboBoxOption(caption: string)

  datatype Method = Include | Exclude

  datatype IndexPermission = IndexPermission(
    indexPatterns: seq<string>,
    dls: string,
    fls: seq<string>,
    maskedFields: seq<string>,
    allowedActions: seq<string>)

  datatype IndexPermissionState = IndexPermissionState(
    indexPatterns: seq<ComboBoxOption>,
    allowedActions: seq<ComboBoxOption>,
    docLevelSecurity: string,
    fieldLevelSecurityMethod: Method,
    fieldLevelSecurityFields: seq<ComboBoxOption>,
    maskedFields: seq<ComboBoxOption>)

  function ToOptions(names: seq<string>): (options: seq<ComboBoxOption>) {
    seq(|names|, i requires 0 <= i < |names| => ComboBoxOption(names[i]))
  }

  function FromOptions(options: seq<ComboBoxOption>): seq<string> {
    seq(|options|, i requires 0 <= i < |options| => options[i].caption)
  }

  lemma FromToOptions(names: seq<string>)
    ensures FromOptions(ToOptions(names)) == names
  {
  }

  predicate IsExcluded(field: string) {
    "~" <= field
  }

  function GetFieldLevelSecurityMethod(fls: seq<string>): Method {
    if exists i :: 0 <= i < |fls| && IsExcluded(fls[i]) then Exclude else Include
  }

  /** `s.replace(/^~/, '')` */
  function StripMark(field: string): string {
    if IsExcluded(field) then field[1..] else field
  }

  function GetFieldLevelSecurityFields(fls: seq<string>): seq<ComboBoxOption> {
    ToOptions(seq(|fls|, i requires 0 <= i < |fls| => StripMark(fls[i])))
  }

  function PackFieldLevelSecurity(m: Method, options: seq<ComboBoxOption>): seq<string> {
    var fields := FromOptions(options);
    if m.Include? then fields else seq(|fields|, i requires 0 <= i < |fields| => "~" + fields[i])
  }

  function Build(perm: IndexPermission): IndexPermissionState {
    IndexPermissionState(
      ToOptions(perm.indexPatterns), ToOptions(perm.allowedActions), perm.dls,
      GetFieldLevelSecurityMethod(perm.fls), GetFieldLevelSecurityFields(perm.fls), ToOptions(perm.maskedFields))
  }

  function Unbuild(state: IndexPermissionState): IndexPermission {
    IndexPermission(
      FromOptions(state.indexPatterns), state.docLevelSecurity,
      PackFieldLevelSecurity(state.fieldLevelSecurityMethod, state.fieldLevelSecurityFields),
      FromOptions(state.maskedFields), FromOptions(state.allowedActions))
  }

  function BuildIndexPermissionState(perms: seq<IndexPermission>): seq<IndexPermissionState> {
    seq(|perms|, i requires 0 <= i < |perms| => Build(perms[i]))
  }

  function UnbuildIndexPermissionState(states: seq<IndexPermissionState>): seq<IndexPermission> {
    seq(|states|, i requires 0 <= i < |states| => Unbuild(states[i]))
  }

  /** Opening a role in the editor and saving it unchanged. */
  function Resave(perms: seq<IndexPermission>): seq<IndexPermission> {
    UnbuildIndexPermissionState(BuildIndexPermissionState(perms))
  }

  /** The fields are all excluded, or none is. */
  ghost predicate Uniform(fls: seq<string>) {
    (forall i :: 0 <= i < |fls| ==> IsExcluded(fls[i])) || (forall i :: 0 <= i < |fls| ==> !IsExcluded(fls[i]))
  }

  /** One entry comes back with its fields all marked if any was, and otherwise as it was. */
  lemma UnbuildBuild(perm: IndexPermission)
    ensures var back := Unbuild(Build(perm));
            && back == perm.(fls := back.fls)
            && |back.fls| == |perm.fls|
            && forall i :: 0 <= i < |perm.fls| ==>
                             var excluding := GetFieldLevelSecurityMethod(perm.fls).Exclude?;
                             back.fls[i] == if excluding then "~" + StripMark(perm.fls[i]) else perm.fls[i]
  {
    FromToOptions(perm.indexPatterns);
    FromToOptions(perm.maskedFields);
    FromToOptions(perm.allowedActions);
    FromToOptions(seq(|perm.fls|, i requires 0 <= i < |perm.fls| => StripMark(perm.fls[i])));
  }

  lemma EntryRoundTripIff(perm: IndexPermission)
    ensures Unbuild(Build(perm)) == perm <==> Uniform(perm.fls)
    ensures Uniform(Unbuild(Build(perm)).fls)
  {
    hide Build;
    hide Unbuild;
    UnbuildBuild(perm);
    var back := Unbuild(Build(perm));
    if GetFieldLevelSecurityMethod(perm.fls).Exclude? {
      var marked :| 0 <= marked < |perm.fls| && IsExcluded(perm.fls[marked]);
      forall i | 0 <= i < |perm.fls|
        ensures IsExcluded(back.fls[i]) && (back.fls[i] == perm.fls[i] <==> IsExcluded(perm.fls[i]))
      {
        if IsExcluded(perm.fls[i]) {
          assert perm.fls[i] == "~" + perm.fls[i][1..];
        }
      }
      if Uniform(perm.fls) {
        assert back.fls == perm.fls;
      }
    } else {
      assert back.fls == perm.fls;
    }
  }

  /** Main result: saving a role unchanged changes nothing if and only if every entry excludes
      all of its fields or none. */
  lemma ResaveIdentityIff(perms: seq<IndexPermission>)
    ensures Resave(perms) == perms <==> forall k :: 0 <= k < |perms| ==> Uniform(perms[k].fls)
  {
    hide Build;
    hide Unbuild;
    hide Uniform;
    var back := Resave(perms);
    forall k | 0 <= k < |perms|
      ensures back[k] == perms[k] <==> Uniform(perms[k].fls)
    {
      EntryRoundTripIff(perms[k]);
    }
  }

  /** Saving a second time never changes anything. */
  lemma ResaveIdempotent(perms: seq<IndexPermission>)
    ensures Resave(Resave(perms)) == Resave(perms)
  {
    hide Build;
    hide Unbuild;
    hide Uniform;
    forall k | 0 <= k < |perms|
      ensures Uniform(Resave(perms)[k].fls)
    {
      EntryRoundTripIff(perms[k]);
    }
    ResaveIdentityIff(Resave(perms));
  }

  // ---- what the editor shows ---------------------------------------------------------------

  predicate Shows(options: seq<ComboBoxOption>, names: seq<string>) {
    |options| == |names| && forall i :: 0 <= i < |names| ==> options[i].caption == names[i]
  }

  /** Main result: the editor shows the entry's patterns, actions, masked fields and query as they
      are. It shows the method `exclude` exactly when some field is marked with `~`, and every
      field without its mark. */
  lemma EditorShows(perm: IndexPermission)
    ensures var state := Build(perm);
            && Shows(state.indexPatterns, perm.indexPatterns)
            && Shows(state.allowedActions, perm.allowedActions)
            && Shows(state.maskedFields, perm.maskedFields)
            && state.docLevelSecurity == perm.dls
            && (state.fieldLevelSecurityMethod == Exclude <==>
                exists i :: 0 <= i < |perm.fls| && perm.fls[i] != "" && perm.fls[i][0] == '~')
            && |state.fieldLevelSecurityFields| == |perm.fls|
            && forall i :: 0 <= i < |perm.fls| ==>
                             var shown := state.fieldLevelSecurityFields[i].caption;
                             perm.fls[i] == "~" + shown || (perm.fls[i] == shown && !("~" <= shown))
  {
    forall i | 0 <= i < |perm.fls|
      ensures IsExcluded(perm.fls[i]) <==> perm.fls[i] != "" && perm.fls[i][0] == '~'
      ensures perm.fls[i] == "~" + StripMark(perm.fls[i]) || (perm.fls[i] == StripMark(perm.fls[i])
                                                              && !("~" <= perm.fls[i]))
    {
    }
    hide IsExcluded;
    hide StripMark;
  }

  /** Main result: saving sends what the editor shows, each field marked exactly when the method
      is `exclude`. */
  lemma SaveSends(state: IndexPermissionState)
    ensures var perm := Unbuild(state);
            && Shows(state.indexPatterns, perm.indexPatterns)
            && Shows(state.allowedActions, perm.allowedActions)
            && Shows(state.maskedFields, perm.maskedFields)
            && perm.dls == state.docLevelSecurity
            && |perm.fls| == |state.fieldLevelSecurityFields|
            && forall i :: 0 <= i < |perm.fls| ==>
                             perm.fls[i] == (if state.fieldLevelSecurityMethod == Exclude then "~" else "")
                             + state.fieldLevelSecurityFields[i].caption
  {
    forall caption: string
      ensures "" + caption == caption
    {
    }
  }
}
