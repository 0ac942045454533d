/**
 * What the annotation reader hands back for one task class, as plain data.
 * The reader itself (parsing doc comments, adapter selection) is outside
 * the model; the help generator only consumes these values.
 */
module Annotations {
  import opened Php

  /** One argument of an annotation: a string, or an array of named strings. */
  datatype Arg = Str(s: string) | Dict(fields: map<string, string>)

  /** PHP string conversion of an argument, as `echo` and `.` perform it. */
  function Text(a: Arg): (r: string)
    ensures a.Str? ==> r == a.s
    ensures a.Dict? ==> r == "Array"
  {
    match a
    case Str(s) => s
    case Dict(_) => "Array"
  }

  /** `$annotation->getName()` and `$annotation->getArguments()`. */
  datatype Annotation = Annotation(name: string, arguments: seq<Arg>)

  /** The annotations of one method, in source order. */
  datatype Collection = Collection(annotations: seq<Annotation>)

  /** `$collection->has($name)`. */
  function Has(c: Collection, name: string): (r: bool)
    ensures r <==> exists i | 0 <= i < |c.annotations| :: c.annotations[i].name == name
  {
    exists a | a in c.annotations :: a.name == name
  }

  /** One entry of `getMethodsAnnotations()`: the method name and its collection. */
  datatype MethodAnnotations = MethodAnnotations(action: string, collection: Collection)

  /**
   * `$reader->get($taskClass)`: the class annotations (None where the reader
   * answers false) and the annotated methods in declaration order (empty
   * where the reader answers false or an empty array).
   */
  datatype Reflector = Reflector(classAnnotations: Option<Collection>, methodsAnnotations: seq<MethodAnnotations>)
}
