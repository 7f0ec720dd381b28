/** Saved objects kept apart by tenant (server/saved_objects/saved_objects_wrapper.ts). */
module SavedObjects {
  import opened Wrappers

  const PRIVATE_TENANT_SYMBOL := "__user__"

  /** None is the source's undefined. */
  type Namespace = Option<string>

  /** What the wrapper is created with, for one request. */
  datatype Scope = Scope(
    selectedTenant: Option<string>,
    username: Option<string>,
    tenants: Option<seq<string>>,
    isPrivateEnabled: bool)
  {
    /** `selectedTenant + username` */
    function PrivateNamespace(): Namespace
      requires selectedTenant.Some?
    {
      Some(selectedTenant.value + if username.Some? then username.value else "undefined")
    }

    predicate IsPrivate() {
      selectedTenant == Some(PRIVATE_TENANT_SYMBOL)
    }

    /** Where every call but `find` works. */
    function WriteNamespace(): Namespace {
      if isPrivateEnabled && IsPrivate() then PrivateNamespace() else selectedTenant
    }

    /** Where `find` looks. */
    function FindNamespace(): Namespace {
      if IsPrivate() then PrivateNamespace() else selectedTenant
    }
  }

  /** A search: the types asked for, and the namespaces if the caller names any. */
  datatype FindOptions = FindOptions(types: seq<string>, namespaces: Option<seq<string>>)

  /** What reaches the wrapped client: either one namespace for all types, or a list per type. */
  datatype Search =
    | InNamespace(types: seq<string>, namespace: Namespace)
    | ByType(typeToNamespaces: map<string, seq<string>>)
    | Thrown

  /** Whether the search looks at objects of this type in this namespace. */
  predicate Reaches(search: Search, t: string, namespace: string) {
    match search
    case InNamespace(types, n) => t in types && n == Some(namespace)
    case ByType(m) => t in m && namespace in m[t]
    case Thrown => false
  }

  function FillTypes(types: seq<string>, namespaces: seq<string>): map<string, seq<string>> {
    map t | t in types :: namespaces
  }

  function SearchFor(scope: Scope, options: FindOptions): Search {
    if scope.tenants.None? then Thrown
    else if options.namespaces.None? then InNamespace(options.types, scope.FindNamespace())
    else
      var all := FillTypes(options.types, options.namespaces.value);
      ByType(
        if "config" !in options.types then all
        else
          match scope.FindNamespace()
          case Some(own) =>
            if own in options.namespaces.value then all["config" := [own]] else all - {"config"}
          case None => all - {"config"})
  }

  /** The closures `wrapperFactory` returns, sharing one mutable namespace. */
  class Wrapper {
    const scope: Scope
    var namespaceValue: Namespace

    ghost predicate Valid()
      reads this
    {
      namespaceValue == scope.selectedTenant || (scope.IsPrivate() && namespaceValue == scope.PrivateNamespace())
    }

    constructor (scope: Scope)
      ensures Valid() && this.scope == scope
    {
      this.scope := scope;
      namespaceValue := scope.selectedTenant;
    }

    /** `get`, `create`, `update`, `delete`, the bulk calls and `checkConflicts` all begin so;
        the result is the namespace assigned into their options. */
    method AssignNamespace() returns (namespace: Namespace)
      requires Valid()
      modifies this
      ensures Valid() && namespace == scope.WriteNamespace()
      ensures namespaceValue == namespace
    {
      namespaceValue := scope.selectedTenant;
      if scope.selectedTenant.Some? && scope.isPrivateEnabled && scope.selectedTenant.value == PRIVATE_TENANT_SYMBOL {
        namespaceValue := scope.PrivateNamespace();
      }
      namespace := namespaceValue;
    }

    method Find(options: FindOptions) returns (search: Search)
      requires Valid()
      modifies this
      ensures Valid() && search == SearchFor(scope, options)
      ensures !search.Thrown? ==> namespaceValue == scope.FindNamespace()
    {
      if scope.tenants.None? {
        return Thrown;
      }
      if scope.selectedTenant == Some(PRIVATE_TENANT_SYMBOL) {
        namespaceValue := scope.PrivateNamespace();
      }
      if options.namespaces.None? {
        return InNamespace(options.types, namespaceValue);
      }
      var namespacesToInclude := options.namespaces.value;
      var typeToNamespacesMap: map<string, seq<string>> := map[];
      for i := 0 to |options.types|
        invariant typeToNamespacesMap == FillTypes(options.types[..i], namespacesToInclude)
      {
        assert options.types[..i + 1] == options.types[..i] + [options.types[i]];
        typeToNamespacesMap := typeToNamespacesMap[options.types[i] := namespacesToInclude];
      }
      assert options.types[..|options.types|] == options.types;
      if "config" in options.types {
        if namespaceValue.Some? && namespaceValue.value in namespacesToInclude {
          typeToNamespacesMap := typeToNamespacesMap["config" := [namespaceValue.value]];
        } else {
          typeToNamespacesMap := typeToNamespacesMap - {"config"};
        }
      }
      return ByType(typeToNamespacesMap);
    }
  }

  /** One call on the wrapper. */
  datatype Call = Write | FindCall(options: FindOptions)

  datatype Reply = Wrote(namespace: Namespace) | Searched(search: Search)

  function ReplyTo(scope: Scope, call: Call): Reply {
    match call
    case Write => Wrote(scope.WriteNamespace())
    case FindCall(options) => Searched(SearchFor(scope, options))
  }

  /** Each call is answered as if it were the only one. */
  ghost predicate AnsweredAlone(scope: Scope, calls: seq<Call>, replies: seq<Reply>) {
    |replies| == |calls| && forall i :: 0 <= i < |calls| ==> replies[i] == ReplyTo(scope, calls[i])
  }

  /** Main result: however calls are mixed on one wrapper, each is answered as if it were the
      only one: the shared variable never leaks from one call into another. */
  method Run(scope: Scope, calls: seq<Call>) returns (replies: seq<Reply>)
    ensures AnsweredAlone(scope, calls, replies)
  {
    var wrapper := new Wrapper(scope);
    replies := [];
    for i := 0 to |calls|
      invariant wrapper.Valid() && wrapper.scope == scope
      invariant fresh(wrapper)
      invariant |replies| == i
      invariant forall k :: 0 <= k < i ==> replies[k] == ReplyTo(scope, calls[k])
    {
      match calls[i] {
        case Write =>
          var namespace := wrapper.AssignNamespace();
          replies := replies + [Wrote(namespace)];
        case FindCall(options) =>
          var search := wrapper.Find(options);
          replies := replies + [Searched(search)];
      }
    }
  }

  /** `find` looks where the other calls write unless the private tenant is selected although
      private tenants are switched off, for a user with a name. */
  lemma FindsWhereWrittenIff(scope: Scope)
    ensures scope.FindNamespace() == scope.WriteNamespace() <==>
            !scope.IsPrivate() || scope.isPrivateEnabled || scope.username == Some("")
  {
    if scope.IsPrivate() {
      var suffix := if scope.username.Some? then scope.username.value else "undefined";
      assert |scope.selectedTenant.value + suffix| == |scope.selectedTenant.value| + |suffix|;
      if suffix == "" {
        assert scope.selectedTenant.value + suffix == scope.selectedTenant.value;
      }
    }
  }

  /** In any sequence of calls, a search for `config` objects never reaches another namespace,
      whatever namespaces the caller asks for, and reaches its own exactly when asked to. */
  lemma ConfigStaysInNamespace(scope: Scope, calls: seq<Call>, replies: seq<Reply>, i: nat, namespace: string)
    requires AnsweredAlone(scope, calls, replies) && i < |calls| && calls[i].FindCall?
    ensures replies[i].Searched?
    ensures Reaches(replies[i].search, "config", namespace) <==>
            && scope.tenants.Some?
            && "config" in calls[i].options.types
            && scope.FindNamespace() == Some(namespace)
            && (calls[i].options.namespaces.Some? ==> namespace in calls[i].options.namespaces.value)
  {
  }

  /** In any sequence of calls, every other type is searched in exactly the namespaces asked
      for, or in the own one. */
  lemma OtherTypesReachWhatIsAsked(scope: Scope, calls: seq<Call>, replies: seq<Reply>, i: nat, t: string,
                                   namespace: string)
    requires AnsweredAlone(scope, calls, replies) && i < |calls| && calls[i].FindCall? && t != "config"
    ensures replies[i].Searched?
    ensures Reaches(replies[i].search, t, namespace) <==>
            && scope.tenants.Some?
            && t in calls[i].options.types
            && (if calls[i].options.namespaces.Some? then namespace in calls[i].options.namespaces.value
                else scope.FindNamespace() == Some(namespace))
  {
  }

  /** Main result: in any sequence of calls, where a search finds `config` objects is where
      every other call works, if and only if private tenants are enabled, the private tenant is
      not selected, or the user has no name. */
  lemma ConfigFoundWhereWrittenIff(scope: Scope, calls: seq<Call>, replies: seq<Reply>, i: nat, j: nat,
                                   namespace: string)
    requires AnsweredAlone(scope, calls, replies) && i < |calls| && j < |calls|
    requires calls[i].FindCall? && calls[j].Write?
    requires replies[i].Searched? && Reaches(replies[i].search, "config", namespace)
    ensures replies[j] == Wrote(Some(namespace)) <==>
            !scope.IsPrivate() || scope.isPrivateEnabled || scope.username == Some("")
  {
    ConfigStaysInNamespace(scope, calls, replies, i, namespace);
    FindsWhereWrittenIff(scope);
  }

  // ---- between users -------------------------------------------------------------------

  /** The wrapper of a user with this name who works in the own private tenant. */
  predicate PrivateTo(scope: Scope, user: string) {
    scope.selectedTenant == Some("__user__") && scope.username == Some(user)
  }

  /** The namespace of a private tenant carries the user's name; that of any other tenant is the
      tenant itself. */
  lemma NamespacesAre(scope: Scope)
    ensures scope.selectedTenant != Some("__user__") ==>
              scope.WriteNamespace() == scope.FindNamespace() == scope.selectedTenant
    ensures forall user :: PrivateTo(scope, user) ==>
                             && scope.FindNamespace() == Some("__user__" + user)
                             && scope.WriteNamespace() == Some(if scope.isPrivateEnabled then "__user__" + user
                                                               else "__user__")
    ensures scope.selectedTenant == Some("__user__") && scope.username == None ==>
              scope.FindNamespace() == Some("__user__undefined")
  {
    assert "__user__" + "undefined" == "__user__undefined";
  }

  /** Two users' private namespaces differ exactly when their names do. */
  lemma PrivateNamespacesDifferIff(ours: Scope, theirs: Scope, us: string, them: string)
    requires PrivateTo(ours, us) && PrivateTo(theirs, them)
    ensures ours.FindNamespace() == theirs.FindNamespace() <==> us == them
    ensures ours.isPrivateEnabled && theirs.isPrivateEnabled ==>
              (ours.WriteNamespace() == theirs.WriteNamespace() <==> us == them)
  {
    NamespacesAre(ours);
    NamespacesAre(theirs);
    assert us == ("__user__" + us)[|"__user__"|..] && them == ("__user__" + them)[|"__user__"|..];
  }

  /** Main result: nothing a user's calls write privately is reached by a search of another
      user's calls in the own private tenant, unless that search asks for the writer's namespace
      by name, and then only for types other than `config`. */
  lemma PrivateStaysPrivate(ours: Scope, theirs: Scope, us: string, them: string,
                            writes: seq<Call>, answers: seq<Reply>, searches: seq<Call>, found: seq<Reply>,
                            i: nat, j: nat, t: string)
    requires PrivateTo(ours, us) && PrivateTo(theirs, them) && us != them && ours.isPrivateEnabled
    requires AnsweredAlone(ours, writes, answers) && i < |writes| && writes[i].Write?
    requires AnsweredAlone(theirs, searches, found) && j < |searches| && searches[j].FindCall?
    ensures answers[i] == Wrote(Some("__user__" + us))
    ensures found[j].Searched?
    ensures Reaches(found[j].search, t, "__user__" + us) ==>
              && t != "config"
              && searches[j].options.namespaces.Some?
              && "__user__" + us in searches[j].options.namespaces.value
  {
    NamespacesAre(ours);
    PrivateNamespacesDifferIff(ours, theirs, us, them);
    if t == "config" {
      ConfigStaysInNamespace(theirs, searches, found, j, "__user__" + us);
    } else {
      OtherTypesReachWhatIsAsked(theirs, searches, found, j, t, "__user__" + us);
    }
  }
}
