/**
 * The view of a declared Go type (`types.Object`) that the core uses: its
 * name and the method set of a pointer to it, each method paired with the
 * file it is declared in.  Computing the method set and resolving
 * positions to file names belong to the front end; here both are given.
 */
module Objects {

  /** A method of the set together with the name of its declaring file. */
  datatype MethodEntry = MethodEntry(name: string, file: string)

  datatype Object = Object(name: string, methodSet: seq<MethodEntry>)
}
