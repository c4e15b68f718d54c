/**
 * Abstract method declarations: what a generator hands to the code
 * builder.  A declaration is a doc comment, a receiver clause
 * `receiver *ReceiverType`, a name, a parameter list, an optional result
 * type and a body.  Bodies are field paths below the receiver together
 * with the one operation performed on them; rendering them as Go text is
 * the builder's business and is not modelled.
 */
module Decls {
  import opened Wrappers

  /** A Go type as it appears in a signature. */
  datatype TypeRef =
    | Qual(path: string, name: string)  // `name` qualified by the import path `path`
    | Pointer(elem: TypeRef)            // `*elem`
    | Slice(elem: TypeRef)              // `[]elem`

  /** A parameter `name T` or, when variadic, `name ...T`. */
  datatype Param = Param(name: string, variadic: bool, typ: TypeRef)

  /** An argument `name` or, when spread, `name...`. */
  datatype Arg = Arg(name: string, spread: bool)

  /**
   * Method bodies.  A field is a list of selectors applied to the
   * receiver: `Assign(["Spec", "X"], "r")` is `recv.Spec.X = r`, and
   * `Call(["Status"], "M", args)` is `recv.Status.M(args)`.
   */
  datatype Body =
    | Assign(field: seq<string>, value: string)                     // recv.field = value
    | Return(field: seq<string>)                                    // return recv.field
    | Call(field: seq<string>, callee: string, args: seq<Arg>)      // recv.field.callee(args)
    | ReturnCall(field: seq<string>, callee: string, args: seq<Arg>) // return recv.field.callee(args)
    | NarrowItems(input: string, element: string)
      // recv.Items = make([]element, 0, len(input))
      // for j := range input { if actual, ok := input[j].(*element); ok { recv.Items = append(recv.Items, *actual) } }
    | WrapItems(resource: string)
      // items := make([]resource.PortableClass, len(recv.Items))
      // for i := range recv.Items { items[i] = resource.PortableClass(&recv.Items[i]) }; return items

  /** One emitted method; the receiver is always a pointer to `receiverType`. */
  datatype Decl = Decl(
    comment: string,
    receiver: string,
    receiverType: string,
    name: string,
    params: seq<Param>,
    result: Option<TypeRef>,
    body: Body)

  /** The field of the receiver that a body reads or writes. */
  function Field(b: Body): seq<string>
  {
    if b.NarrowItems? || b.WrapItems? then ["Items"] else b.field
  }
}
