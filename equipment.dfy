/**
 * An equipment instance: its equip policy, its ordered fragments, and the four
 * lifecycle hooks that fan out to the fragments the peer's role admits.
 */
module Equipment {
  import opened EquipmentPolicyTypes

  /** What a hook learns about the owning actor on this peer. */
  datatype Role = Role(
    hasAuthority: bool,       // the owner is authoritative here
    isDedicatedServer: bool,  // this peer is a dedicated server
    hasLocalNetOwner: bool)   // the owner is locally controlled here

  /** A side-effect handler attached to an instance, with its net-execution policy. */
  datatype Fragment = Fragment(id: nat, policy: NetExecutionPolicy)

  /** The configuration of an equipment instance, fixed by its class defaults. */
  datatype Instance = Instance(equipPolicy: EquipPolicy, fragments: seq<Fragment>)

  /** The class defaults: an instance whose class sets nothing cannot be equipped. */
  function DefaultInstance(fragments: seq<Fragment>): (inst: Instance)
    ensures !MayBecomeActive(inst.equipPolicy)
    ensures inst.fragments == fragments
  {
    Instance(CannotBeEquipped, fragments)
  }

  /** The four lifecycle hooks of an instance. */
  datatype HookKind = EquipmentGiven | EquipmentRemove | Equiped | Unequiped

  /** One call of a fragment's handler for one hook. */
  datatype FragmentCall = FragmentCall(kind: HookKind, fragment: nat)

  /** The filter every hook applies to a fragment's policy. */
  predicate ShouldExecute(p: NetExecutionPolicy, role: Role)
  {
    || p == Both
    || (role.hasAuthority && p == ServerOnly)
    || (role.hasLocalNetOwner && p == LocalOnly)
    || (!role.isDedicatedServer && p == ClientOnly)
  }

  /** The fragments that receive a hook on a peer with `role`, in list order. */
  function Selected(fragments: seq<Fragment>, role: Role): (r: seq<Fragment>)
    ensures |r| <= |fragments|
    ensures forall f :: f in r ==> f in fragments && ShouldExecute(f.policy, role)
    ensures forall f :: f in fragments && ShouldExecute(f.policy, role) ==> f in r
    decreases |fragments|
  {
    if fragments == [] then []
    else
      var rest := Selected(fragments[1..], role);
      if ShouldExecute(fragments[0].policy, role) then [fragments[0]] + rest else rest
  }

  /** Selection distributes over concatenation, so the selected fragments keep their list order. */
  lemma {:induction false} SelectedAppend(a: seq<Fragment>, b: seq<Fragment>, role: Role)
    ensures Selected(a + b, role) == Selected(a, role) + Selected(b, role)
    decreases |a|
  {
    if a == [] {
      assert a + b == b;
    } else {
      assert (a + b)[1..] == a[1..] + b;
      SelectedAppend(a[1..], b, role);
    }
  }

  /** Every fragment occurrence that passes the filter is called exactly once; the others never. */
  lemma {:induction false} SelectedCount(fragments: seq<Fragment>, role: Role, f: Fragment)
    ensures multiset(Selected(fragments, role))[f] ==
      (if ShouldExecute(f.policy, role) then multiset(fragments)[f] else 0)
    decreases |fragments|
  {
    if fragments != [] {
      SelectedCount(fragments[1..], role, f);
      assert fragments == [fragments[0]] + fragments[1..];
    }
  }

  /** The calls one hook makes: the selected fragments, in order, each tagged with the hook. */
  function HookCalls(kind: HookKind, fragments: seq<Fragment>, role: Role): (calls: seq<FragmentCall>)
    ensures |calls| == |Selected(fragments, role)|
  {
    var sel := Selected(fragments, role);
    seq(|sel|, j requires 0 <= j < |sel| => FragmentCall(kind, sel[j].id))
  }

  /** Appending a fragment appends its call exactly when its policy admits the role. */
  lemma HookCallsAppend(kind: HookKind, fragments: seq<Fragment>, f: Fragment, role: Role)
    ensures HookCalls(kind, fragments + [f], role) ==
      HookCalls(kind, fragments, role) + (if ShouldExecute(f.policy, role) then [FragmentCall(kind, f.id)] else [])
  {
    SelectedAppend(fragments, [f], role);
    assert [f][1..] == [];
  }

  /**
   * One lifecycle hook of an instance: visits the fragments in list order and
   * calls those whose policy the owner's role admits.
   */
  method Dispatch(kind: HookKind, inst: Instance, role: Role) returns (calls: seq<FragmentCall>)
    ensures calls == HookCalls(kind, inst.fragments, role)
  {
    var fragments := inst.fragments;
    calls := [];
    var i := 0;
    while i < |fragments|
      invariant 0 <= i <= |fragments|
      invariant calls == HookCalls(kind, fragments[..i], role)
    {
      var fragment := fragments[i];
      HookCallsAppend(kind, fragments[..i], fragment, role);
      assert fragments[..i + 1] == fragments[..i] + [fragment];
      if ShouldExecute(fragment.policy, role) {
        calls := calls + [FragmentCall(kind, fragment.id)];
      }
      i := i + 1;
    }
    assert fragments[..i] == fragments;
  }
}
