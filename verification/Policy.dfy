/** Expansion of remote permissions into local rules (internal/platform/authz/policy.go). */
module Policy {
  import opened Text
  import opened Sequences

  datatype RemotePermission = RemotePermission(
    owner: string,
    name: string,
    displayName: string,
    description: string,
    users: seq<string>,
    groups: seq<string>,
    roles: seq<string>,
    domains: seq<string>,
    model: string,
    resourceType: string,
    resources: seq<string>,
    actions: seq<string>,
    effect: string,
    isEnabled: bool,
    state: string)

  datatype Rule = Rule(sub: string, obj: string, act: string)

  /** The role's own name: what follows the last slash, unless nothing does. */
  function BareRole(roleID: string): string {
    var id := TrimSpace(roleID);
    var i := LastSlash(id);
    if id == "" then ""
    else if i >= 0 && i + 1 < |id| then id[i + 1..]
    else id
  }

  /** Whether a permission is imported at all. */
  predicate Active(p: RemotePermission, modelFilter: string) {
    && p.isEnabled
    && (p.state == "" || EqualFold(p.state, "Approved"))
    && (TrimSpace(p.effect) == "" || EqualFold(TrimSpace(p.effect), "Allow"))
    && (modelFilter == "" || p.model == modelFilter)
  }

  // ----- the rule sequence, level by level -----

  function ActionRules(sub: string, obj: string): string -> seq<Rule> {
    (action: string) =>
      var act := TrimSpace(action);
      if act == "" then [] else [Rule(sub, obj, act)]
  }

  function ResourceRules(sub: string, actions: seq<string>): string -> seq<Rule> {
    (resource: string) =>
      var obj := TrimSpace(resource);
      if obj == "" then [] else FlatMap(actions, ActionRules(sub, obj))
  }

  function RoleRules(resources: seq<string>, actions: seq<string>): string -> seq<Rule> {
    (roleID: string) =>
      var sub := BareRole(roleID);
      if sub == "" then [] else FlatMap(resources, ResourceRules(sub, actions))
  }

  function PermissionRules(modelFilter: string): RemotePermission -> seq<Rule> {
    (p: RemotePermission) =>
      if Active(p, modelFilter) then FlatMap(p.roles, RoleRules(p.resources, p.actions)) else []
  }

  /** The rules of all permissions, in the order they are appended. */
  function Rules(perms: seq<RemotePermission>, modelFilter: string): seq<Rule> {
    FlatMap(perms, PermissionRules(modelFilter))
  }

  method PoliciesFromPermissions(perms: seq<RemotePermission>, modelFilter: string) returns (out: seq<Rule>)
    ensures out == Rules(perms, modelFilter)
  {
    out := [];
    for i := 0 to |perms|
      invariant out == FlatMap(perms[..i], PermissionRules(modelFilter))
    {
      var p := perms[i];
      FlatMapStep(perms, i, PermissionRules(modelFilter));
      if !p.isEnabled {
        continue;
      }
      if p.state != "" && !EqualFold(p.state, "Approved") {
        continue;
      }
      var effect := TrimSpace(p.effect);
      if effect != "" && !EqualFold(effect, "Allow") {
        continue;
      }
      if modelFilter != "" && p.model != modelFilter {
        continue;
      }
      out := AppendRoles(out, p.roles, p.resources, p.actions);
    }
    assert perms[..|perms|] == perms;
  }

  /** The loop over the roles of one permission. */
  method AppendRoles(before: seq<Rule>, roles: seq<string>, resources: seq<string>, actions: seq<string>)
      returns (out: seq<Rule>)
    ensures out == before + FlatMap(roles, RoleRules(resources, actions))
  {
    out := before;
    for j := 0 to |roles|
      invariant out == before + FlatMap(roles[..j], RoleRules(resources, actions))
    {
      AppendStep(before, roles, j, RoleRules(resources, actions));
      var sub := BareRole(roles[j]);
      if sub == "" {
        continue;
      }
      out := AppendResources(out, sub, resources, actions);
    }
    assert roles[..|roles|] == roles;
  }

  /** The loop over the resources, for one role. */
  method AppendResources(before: seq<Rule>, sub: string, resources: seq<string>, actions: seq<string>)
      returns (out: seq<Rule>)
    ensures out == before + FlatMap(resources, ResourceRules(sub, actions))
  {
    out := before;
    for k := 0 to |resources|
      invariant out == before + FlatMap(resources[..k], ResourceRules(sub, actions))
    {
      AppendStep(before, resources, k, ResourceRules(sub, actions));
      var obj := TrimSpace(resources[k]);
      if obj == "" {
        continue;
      }
      out := AppendActions(out, sub, obj, actions);
    }
    assert resources[..|resources|] == resources;
  }

  /** The innermost loop: every action, for one role and one resource. */
  method AppendActions(before: seq<Rule>, sub: string, obj: string, actions: seq<string>) returns (out: seq<Rule>)
    ensures out == before + FlatMap(actions, ActionRules(sub, obj))
  {
    out := before;
    for l := 0 to |actions|
      invariant out == before + FlatMap(actions[..l], ActionRules(sub, obj))
    {
      AppendStep(before, actions, l, ActionRules(sub, obj));
      var act := TrimSpace(actions[l]);
      if act == "" {
        continue;
      }
      out := out + [Rule(sub, obj, act)];
    }
    assert actions[..|actions|] == actions;
  }

  // ----- what the rules say -----

  /** The item, once trimmed, is this non-blank text. */
  ghost predicate Lists(items: seq<string>, text: string) {
    text != "" && exists x :: x in items && TrimSpace(x) == text
  }

  ghost predicate BindsRole(p: RemotePermission, role: string) {
    role != "" && exists id :: id in p.roles && BareRole(id) == role
  }

  /** An enabled record, approved or without a state, allowing or without an effect, and of the
      model asked for, if one is: which records count, read off their fields. */
  ghost predicate Counts(p: RemotePermission, modelFilter: string) {
    && p.isEnabled
    && (p.state == "" || InAnyCase(p.state, "approved", "APPROVED"))
    && (TrimSpace(p.effect) == "" || InAnyCase(TrimSpace(p.effect), "allow", "ALLOW"))
    && (modelFilter == "" || p.model == modelFilter)
  }

  lemma CountsExactly(p: RemotePermission, modelFilter: string)
    ensures Active(p, modelFilter) <==> Counts(p, modelFilter)
  {
    FoldsExactly(p.state, "Approved", "approved", "APPROVED");
    FoldsExactly(TrimSpace(p.effect), "Allow", "allow", "ALLOW");
  }

  /** A record that is disabled, has another state or another effect, or is of another model
      than the one asked for yields no rule, whatever it lists. */
  lemma OthersYieldNothing(p: RemotePermission, modelFilter: string)
    requires || !p.isEnabled
             || (p.state != "" && !InAnyCase(p.state, "approved", "APPROVED"))
             || (TrimSpace(p.effect) != "" && !InAnyCase(TrimSpace(p.effect), "allow", "ALLOW"))
             || (modelFilter != "" && p.model != modelFilter)
    ensures Rules([p], modelFilter) == []
  {
    CountsExactly(p, modelFilter);
    FlatMapCons(p, [], PermissionRules(modelFilter));
    assert [p] == [p] + [];
  }

  /** The permission grants the rule: an independent reading of the remote record. */
  ghost predicate Grants(p: RemotePermission, modelFilter: string, r: Rule) {
    Counts(p, modelFilter) && BindsRole(p, r.sub) && Lists(p.resources, r.obj) && Lists(p.actions, r.act)
  }

  lemma {:induction false} ActionRulesExact(sub: string, obj: string, actions: seq<string>, r: Rule)
    ensures r in FlatMap(actions, ActionRules(sub, obj)) <==> r.sub == sub && r.obj == obj && Lists(actions, r.act)
  {
    FlatMapContains(actions, ActionRules(sub, obj), r);
    if r.sub == sub && r.obj == obj && Lists(actions, r.act) {
      var x :| x in actions && TrimSpace(x) == r.act;
      assert r in ActionRules(sub, obj)(x);
    }
  }

  lemma {:induction false} ResourceRulesExact(sub: string, resources: seq<string>, actions: seq<string>, r: Rule)
    ensures r in FlatMap(resources, ResourceRules(sub, actions)) <==>
            r.sub == sub && Lists(resources, r.obj) && Lists(actions, r.act)
  {
    FlatMapContains(resources, ResourceRules(sub, actions), r);
    forall x | x in resources
      ensures r in ResourceRules(sub, actions)(x) <==>
              TrimSpace(x) != "" && r.sub == sub && r.obj == TrimSpace(x) && Lists(actions, r.act)
    {
      ActionRulesExact(sub, TrimSpace(x), actions, r);
    }
  }

  lemma PermissionRulesExact(p: RemotePermission, modelFilter: string, r: Rule)
    ensures r in PermissionRules(modelFilter)(p) <==> Grants(p, modelFilter, r)
  {
    CountsExactly(p, modelFilter);
    FlatMapContains(p.roles, RoleRules(p.resources, p.actions), r);
    forall id | id in p.roles
      ensures r in RoleRules(p.resources, p.actions)(id) <==>
              BareRole(id) != "" && r.sub == BareRole(id) && Lists(p.resources, r.obj) && Lists(p.actions, r.act)
    {
      ResourceRulesExact(BareRole(id), p.resources, p.actions, r);
    }
  }

  /** A rule is produced exactly when some permission grants it. */
  lemma RulesExact(perms: seq<RemotePermission>, modelFilter: string, r: Rule)
    ensures r in Rules(perms, modelFilter) <==> exists p :: p in perms && Grants(p, modelFilter, r)
  {
    FlatMapContains(perms, PermissionRules(modelFilter), r);
    forall p | p in perms
      ensures r in PermissionRules(modelFilter)(p) <==> Grants(p, modelFilter, r)
    {
      PermissionRulesExact(p, modelFilter, r);
    }
  }

  /** Trimming on the left stops at the first character that is not a space. */
  lemma TrimLeftKeepsTail(s: string, tail: string) returns (kept: string)
    requires tail != "" && !IsSpace(tail[0])
    ensures TrimLeft(s + tail) == kept + tail
  {
    if s == "" {
      assert s + tail == tail;
      kept := "";
    } else if IsSpace(s[0]) {
      assert (s + tail)[1..] == s[1..] + tail;
      kept := TrimLeftKeepsTail(s[1..], tail);
    } else {
      assert (s + tail)[0] == s[0];
      kept := s;
    }
  }

  lemma {:induction false} TrimRightKeepsAll(s: string, tail: string)
    requires tail != "" && !IsSpace(tail[|tail| - 1])
    ensures TrimRight(s + tail) == s + tail
  {
    assert (s + tail)[|s + tail| - 1] == tail[|tail| - 1];
  }

  lemma {:induction false} LastSlashBefore(org: string, name: string)
    requires '/' !in name
    ensures LastSlash(org + ['/'] + name) == |org|
    ensures (org + ['/'] + name)[|org| + 1..] == name
  {
    var id := org + ['/'] + name;
    assert id[|org|] == '/';
    forall j | |org| < j < |id| ensures id[j] != '/' {
      assert id[j] == name[j - |org| - 1];
    }
  }

  /** A role id of the form org/name stands for name; the org does not matter. */
  lemma BareRoleDropsOrg(org: string, name: string)
    requires name != "" && '/' !in name && Trimmed(name)
    ensures BareRole(org + "/" + name) == name
    ensures BareRole(name) == name
  {
    var tail := ['/'] + name;
    assert org + "/" + name == org + tail;
    var kept := TrimLeftKeepsTail(org, tail);
    TrimRightKeepsAll(kept, tail);
    assert TrimSpace(org + "/" + name) == kept + ['/'] + name;
    LastSlashBefore(kept, name);
    TrimmedUnchanged(name);
    assert LastSlash(name) == -1;
  }

  /** A trimmed role id without a slash, or with one at its end, is a role of its own; any other
      stands for what follows its last slash. */
  lemma BareRoleExactly(roleID: string)
    ensures var id, role := TrimSpace(roleID), BareRole(roleID);
            if '/' !in id || id[|id| - 1] == '/' then role == id
            else exists org: string :: id == org + "/" + role && role != "" && '/' !in role
  {
    var id, role := TrimSpace(roleID), BareRole(roleID);
    var i := LastSlash(id);
    if i >= 0 {
      assert id[i] in id;
      if i + 1 < |id| {
        var org := id[..i];
        assert id == org + "/" + role;
        forall c | c in role ensures c != '/' {
          var j :| 0 <= j < |role| && role[j] == c;
          assert id[i + 1 + j] == c;
        }
      }
    }
  }
}
