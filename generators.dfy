/**
 * The generator family of internal/method/method.go.  Each `NewX(receiver,
 * pkg[, field])` closure becomes a constructor of `Generator` carrying the
 * same configuration strings, and `Generate` is what the closure writes
 * for a given type: one declaration, `func (receiver *T) X(...) ...`
 * preceded by the comment "X of this T.".
 */
module Generators {
  import opened Wrappers
  import opened Decls
  import opened Objects
  import GoStrings

  /** The field names of the `fields` package. */
  const NameSpec := "Spec"
  const NameStatus := "Status"

  datatype Generator =
    | SetConditions(receiver: string, runtime: string)
    | GetCondition(receiver: string, runtime: string)
    | SetBindingPhase(receiver: string, runtime: string)
    | GetBindingPhase(receiver: string, runtime: string)
    | SetClaimReference(receiver: string, core: string)
    | GetClaimReference(receiver: string, core: string)
    | SetResourceReference(receiver: string, core: string)
    | GetResourceReference(receiver: string, core: string)
    | SetNonPortableClassReference(receiver: string, core: string)
    | GetNonPortableClassReference(receiver: string, core: string)
    | SetPortableClassReference(receiver: string, core: string)
    | GetPortableClassReference(receiver: string, core: string)
    | SetWriteConnectionSecretToReference(receiver: string, core: string)
    | GetWriteConnectionSecretToReference(receiver: string, core: string)
    | SetReclaimPolicy(receiver: string, core: string, field: string)
    | GetReclaimPolicy(receiver: string, runtime: string, field: string)
    | SetPortableClassItems(receiver: string, resource: string)
    | GetPortableClassItems(receiver: string, resource: string)

  /** What a generator's method sets or gets: its name without the Set/Get prefix. */
  function Subject(g: Generator): string
  {
    match g
    case SetConditions(_, _) => "Conditions"
    case GetCondition(_, _) => "Condition"
    case SetBindingPhase(_, _) => "BindingPhase"
    case GetBindingPhase(_, _) => "BindingPhase"
    case SetClaimReference(_, _) => "ClaimReference"
    case GetClaimReference(_, _) => "ClaimReference"
    case SetResourceReference(_, _) => "ResourceReference"
    case GetResourceReference(_, _) => "ResourceReference"
    case SetNonPortableClassReference(_, _) => "NonPortableClassReference"
    case GetNonPortableClassReference(_, _) => "NonPortableClassReference"
    case SetPortableClassReference(_, _) => "PortableClassReference"
    case GetPortableClassReference(_, _) => "PortableClassReference"
    case SetWriteConnectionSecretToReference(_, _) => "WriteConnectionSecretToReference"
    case GetWriteConnectionSecretToReference(_, _) => "WriteConnectionSecretToReference"
    case SetReclaimPolicy(_, _, _) => "ReclaimPolicy"
    case GetReclaimPolicy(_, _, _) => "ReclaimPolicy"
    case SetPortableClassItems(_, _) => "PortableClassItems"
    case GetPortableClassItems(_, _) => "PortableClassItems"
  }

  /** The name of the method each generator writes. */
  function MethodName(g: Generator): string
  {
    (if IsSetter(g) then "Set" else "Get") + Subject(g)
  }

  predicate IsSetter(g: Generator)
  {
    || g.SetConditions? || g.SetBindingPhase? || g.SetClaimReference?
    || g.SetResourceReference? || g.SetNonPortableClassReference?
    || g.SetPortableClassReference? || g.SetWriteConnectionSecretToReference?
    || g.SetReclaimPolicy? || g.SetPortableClassItems?
  }

  /** The generators that write `Spec.<Field>` through an object reference. */
  predicate IsReference(g: Generator)
  {
    || g.SetClaimReference? || g.GetClaimReference?
    || g.SetResourceReference? || g.GetResourceReference?
    || g.SetNonPortableClassReference? || g.GetNonPortableClassReference?
    || g.SetPortableClassReference? || g.GetPortableClassReference?
    || g.SetWriteConnectionSecretToReference? || g.GetWriteConnectionSecretToReference?
  }

  /** The setter or getter that accesses the same state, with the same configuration. */
  function Partner(g: Generator): Generator
  {
    match g
    case SetConditions(r, p) => GetCondition(r, p)
    case GetCondition(r, p) => SetConditions(r, p)
    case SetBindingPhase(r, p) => GetBindingPhase(r, p)
    case GetBindingPhase(r, p) => SetBindingPhase(r, p)
    case SetClaimReference(r, p) => GetClaimReference(r, p)
    case GetClaimReference(r, p) => SetClaimReference(r, p)
    case SetResourceReference(r, p) => GetResourceReference(r, p)
    case GetResourceReference(r, p) => SetResourceReference(r, p)
    case SetNonPortableClassReference(r, p) => GetNonPortableClassReference(r, p)
    case GetNonPortableClassReference(r, p) => SetNonPortableClassReference(r, p)
    case SetPortableClassReference(r, p) => GetPortableClassReference(r, p)
    case GetPortableClassReference(r, p) => SetPortableClassReference(r, p)
    case SetWriteConnectionSecretToReference(r, p) => GetWriteConnectionSecretToReference(r, p)
    case GetWriteConnectionSecretToReference(r, p) => SetWriteConnectionSecretToReference(r, p)
    case SetReclaimPolicy(r, p, f) => GetReclaimPolicy(r, p, f)
    case GetReclaimPolicy(r, p, f) => SetReclaimPolicy(r, p, f)
    case SetPortableClassItems(r, p) => GetPortableClassItems(r, p)
    case GetPortableClassItems(r, p) => SetPortableClassItems(r, p)
  }

  /** The element type of a list type: its name without a trailing "List". */
  function ElementName(listName: string): string
  {
    GoStrings.TrimSuffix(listName, "List")
  }

  /** The common frame of every generated method: comment, receiver and name. */
  function Method(name: string, receiver: string, o: Object, params: seq<Param>,
                  result: Option<TypeRef>, body: Body): Decl
  {
    Decl(name + " of this " + o.name + ".", receiver, o.name, name, params, result, body)
  }

  /** The single declaration generator `g` writes for `o`. */
  function Generate(g: Generator, o: Object): (d: Decl)
    ensures d.name == MethodName(g)
    ensures d.receiver == g.receiver && d.receiverType == o.name
    ensures d.comment == MethodName(g) + " of this " + o.name + "."
  {
    var name := MethodName(g);
    var subject := Subject(g);
    match g
    case SetConditions(recv, runtime) =>
      Method(name, recv, o, [Param("c", true, Qual(runtime, "Condition"))], None,
             Call([NameStatus], "SetConditions", [Arg("c", true)]))
    case GetCondition(recv, runtime) =>
      Method(name, recv, o, [Param("c", true, Qual(runtime, "Condition"))], None,
             Call([NameStatus], "GetCondition", [Arg("c", true)]))
    case SetBindingPhase(recv, runtime) =>
      Method(name, recv, o, [Param("p", false, Qual(runtime, "BindingPhase"))], None,
             Call([NameStatus], "SetBindingPhase", [Arg("p", false)]))
    case GetBindingPhase(recv, runtime) =>
      Method(name, recv, o, [], Some(Qual(runtime, "BindingPhase")),
             ReturnCall([NameStatus], "GetBindingPhase", []))
    case SetClaimReference(recv, core) =>
      Method(name, recv, o, [Param("r", false, Pointer(Qual(core, "ObjectReference")))], None,
             Assign([NameSpec, subject], "r"))
    case GetClaimReference(recv, core) =>
      Method(name, recv, o, [], Some(Pointer(Qual(core, "ObjectReference"))),
             Return([NameSpec, subject]))
    case SetResourceReference(recv, core) =>
      Method(name, recv, o, [Param("r", false, Pointer(Qual(core, "ObjectReference")))], None,
             Assign([NameSpec, subject], "r"))
    case GetResourceReference(recv, core) =>
      Method(name, recv, o, [], Some(Pointer(Qual(core, "ObjectReference"))),
             Return([NameSpec, subject]))
    case SetNonPortableClassReference(recv, core) =>
      Method(name, recv, o, [Param("r", false, Pointer(Qual(core, "ObjectReference")))], None,
             Assign([NameSpec, subject], "r"))
    case GetNonPortableClassReference(recv, core) =>
      Method(name, recv, o, [], Some(Pointer(Qual(core, "ObjectReference"))),
             Return([NameSpec, subject]))
    case SetPortableClassReference(recv, core) =>
      Method(name, recv, o, [Param("r", false, Pointer(Qual(core, "LocalObjectReference")))], None,
             Assign([NameSpec, subject], "r"))
    case GetPortableClassReference(recv, core) =>
      Method(name, recv, o, [], Some(Pointer(Qual(core, "LocalObjectReference"))),
             Return([NameSpec, subject]))
    case SetWriteConnectionSecretToReference(recv, core) =>
      Method(name, recv, o, [Param("r", false, Qual(core, "LocalObjectReference"))], None,
             Assign([NameSpec, subject], "r"))
    case GetWriteConnectionSecretToReference(recv, core) =>
      Method(name, recv, o, [], Some(Qual(core, "LocalObjectReference")),
             Return([NameSpec, subject]))
    case SetReclaimPolicy(recv, core, field) =>
      Method(name, recv, o, [Param("r", false, Qual(core, "ReclaimPolicy"))], None,
             Assign([field, subject], "r"))
    case GetReclaimPolicy(recv, runtime, field) =>
      Method(name, recv, o, [], Some(Qual(runtime, "ReclaimPolicy")),
             Return([field, subject]))
    case SetPortableClassItems(recv, resource) =>
      var element := ElementName(o.name);
      Method(name, recv, o, [Param("i", false, Slice(Qual(resource, "PortableClass")))], None,
             NarrowItems("i", element))
    case GetPortableClassItems(recv, resource) =>
      Method(name, recv, o, [], Some(Slice(Qual(resource, "PortableClass"))),
             WrapItems(resource))
  }

  /**
   * Setter and getter come in pairs that access the same field of the
   * receiver, one writing it and the other reading it.
   */
  lemma PairsShareField(g: Generator, o: Object)
    ensures Partner(Partner(g)) == g
    ensures IsSetter(g) != IsSetter(Partner(g))
    ensures Field(Generate(g, o).body) == Field(Generate(Partner(g), o).body)
  {
    match g
    case SetConditions(_, _) =>
    case GetCondition(_, _) =>
    case SetBindingPhase(_, _) =>
    case GetBindingPhase(_, _) =>
    case SetClaimReference(_, _) =>
    case GetClaimReference(_, _) =>
    case SetResourceReference(_, _) =>
    case GetResourceReference(_, _) =>
    case SetNonPortableClassReference(_, _) =>
    case GetNonPortableClassReference(_, _) =>
    case SetPortableClassReference(_, _) =>
    case GetPortableClassReference(_, _) =>
    case SetWriteConnectionSecretToReference(_, _) =>
    case GetWriteConnectionSecretToReference(_, _) =>
    case SetReclaimPolicy(_, _, _) =>
    case GetReclaimPolicy(_, _, _) =>
    case SetPortableClassItems(_, _) =>
    case GetPortableClassItems(_, _) =>
  }

  /**
   * Conditions and binding phase live in `Status`: the generated method
   * delegates to the method of the same name on the `Status` field.
   */
  lemma StatusDelegation(g: Generator, o: Object)
    requires g.SetConditions? || g.GetCondition? || g.SetBindingPhase? || g.GetBindingPhase?
    ensures Field(Generate(g, o).body) == [NameStatus]
    ensures Generate(g, o).body.callee == MethodName(g)
  {
  }

  /**
   * A reference accessor `SetX`/`GetX` reads or writes `Spec.X`, and the
   * reclaim policy accessors the configured field's `ReclaimPolicy`.
   */
  lemma SpecFields(g: Generator, o: Object)
    requires IsReference(g) || g.SetReclaimPolicy? || g.GetReclaimPolicy?
    ensures |MethodName(g)| > 3
    ensures IsReference(g) ==> Field(Generate(g, o).body) == [NameSpec, MethodName(g)[3..]]
    ensures !IsReference(g) ==> Field(Generate(g, o).body) == [g.field, MethodName(g)[3..]]
  {
    assert MethodName(g)[3..] == Subject(g);
  }

  /**
   * The shape of the signatures: a setter takes one argument and returns
   * nothing, and its body assigns, calls or narrows, handing exactly that
   * argument on; a getter takes nothing, returns a value and its body
   * returns a field, a call's result or the wrapped items, except `GetCondition`, which takes the
   * variadic conditions, returns nothing and merely calls
   * `Status.GetCondition(c...)`.
   */
  lemma SignatureShape(g: Generator, o: Object)
    ensures var d := Generate(g, o);
      IsSetter(g) ==>
        && |d.params| == 1 && d.result == None
        && (d.body.Assign? || d.body.Call? || d.body.NarrowItems?)
        && (d.body.Assign? ==> d.body.value == d.params[0].name)
        && (d.body.Call? ==> d.body.args == [Arg(d.params[0].name, d.params[0].variadic)])
        && (d.body.NarrowItems? ==> d.body.input == d.params[0].name)
    ensures var d := Generate(g, o);
      !IsSetter(g) && !g.GetCondition? ==>
        && d.params == [] && d.result.Some?
        && (d.body.Return? || d.body.ReturnCall? || d.body.WrapItems?)
    ensures var d := Generate(g, o);
      g.GetCondition? ==>
        && d.params == [Param("c", true, Qual(g.runtime, "Condition"))] && d.result == None
        && d.body == Call([NameStatus], "GetCondition", [Arg("c", true)])
  {
  }

  /**
   * What a setter accepts is what its getter returns, when both are
   * configured with the same package path.  `SetReclaimPolicy` qualifies
   * `ReclaimPolicy` by its `core` argument while `GetReclaimPolicy` uses its
   * `runtime` argument, so the two agree only if the caller passes one path.
   * The condition pair has no such relation: `GetCondition` returns nothing.
   */
  lemma PairTypesAgree(g: Generator, o: Object)
    requires IsSetter(g) && !g.SetConditions?
    ensures Generate(g, o).params[0].typ == Generate(Partner(g), o).result.value
  {
  }

  lemma ReclaimPolicyQualifiers(recv: string, core: string, runtime: string, field: string, o: Object)
    ensures Generate(SetReclaimPolicy(recv, core, field), o).params[0].typ == Qual(core, "ReclaimPolicy")
    ensures Generate(GetReclaimPolicy(recv, runtime, field), o).result == Some(Qual(runtime, "ReclaimPolicy"))
    ensures (Generate(SetReclaimPolicy(recv, core, field), o).params[0].typ ==
             Generate(GetReclaimPolicy(recv, runtime, field), o).result.value) <==> core == runtime
  {
  }

  /**
   * References are passed by pointer, except the connection secret
   * reference, which is a `LocalObjectReference` value.
   */
  lemma ReferenceTypes(g: Generator, o: Object)
    requires IsReference(g)
    ensures var d := Generate(g, o);
      var t := if IsSetter(g) then d.params[0].typ else d.result.value;
      && (g.SetWriteConnectionSecretToReference? || g.GetWriteConnectionSecretToReference? <==> !t.Pointer?)
      && (g.SetPortableClassReference? || g.GetPortableClassReference? ==> t == Pointer(Qual(g.core, "LocalObjectReference")))
      && (g.SetWriteConnectionSecretToReference? || g.GetWriteConnectionSecretToReference? ==> t == Qual(g.core, "LocalObjectReference"))
      && ((|| g.SetClaimReference? || g.GetClaimReference? || g.SetResourceReference? || g.GetResourceReference?
           || g.SetNonPortableClassReference? || g.GetNonPortableClassReference?) ==> t == Pointer(Qual(g.core, "ObjectReference")))
  {
  }

  /**
   * `SetPortableClassItems` narrows to the element type named after the
   * list type without its "List" suffix; a name without that suffix is
   * used unchanged.
   */
  lemma ItemsElementType(recv: string, resource: string, o: Object)
    ensures var b := Generate(SetPortableClassItems(recv, resource), o).body;
      && b.NarrowItems?
      && (GoStrings.HasSuffix(o.name, "List") ==> b.element + "List" == o.name)
      && (!GoStrings.HasSuffix(o.name, "List") ==> b.element == o.name)
  {
  }
}
