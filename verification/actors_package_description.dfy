/** ActorsPackageDescriptionImpl: the element marked `@ActorsPackage`, which
    must be a package; it names the package, the builder class to generate
    there and the builder's access level. */
module ActorsPackageDescription {
  import opened Wrappers
  import opened JavaModel
  import opened GenerationError

  /** The values of the `@ActorsPackage` annotation on the element. */
  datatype AccessLevel = PublicLevel | PackageLevel
  datatype PackageAnnotation = PackageAnnotation(builderName: string, access: AccessLevel)

  /** The element when it is a package (null otherwise), its annotation, and
      the problems found at construction. */
  datatype Description = Description(element: Option<Element>, annotation: PackageAnnotation, errors: seq<GenerationError>)

  /** The constructor: anything but a package is ER0008 and no element. */
  function Describe(e: Element, annotation: PackageAnnotation): (d: Description)
    ensures e.kind == PackageKind ==> d.element == Some(e) && d.errors == []
    ensures e.kind != PackageKind ==> d.element.None? && d.errors == [NewError(ER0008, e.id)]
    ensures d.annotation == annotation
  {
    if e.kind != PackageKind then Description(None, annotation, [NewError(ER0008, e.id)])
    else Description(Some(e), annotation, [])
  }

  /** `validate()`: no problems were found. */
  predicate Validate(d: Description)
  {
    d.errors == []
  }

  /** `describeProblems(errors)`: the problems are appended to the list. */
  function DescribeProblems(d: Description, errors: seq<GenerationError>): (r: seq<GenerationError>)
    ensures |r| == |errors| + |d.errors|
    ensures r[..|errors|] == errors && r[|errors|..] == d.errors
  {
    errors + d.errors
  }

  /** A description is valid exactly when the element is a package, and the
      only problem an invalid one reports is ER0008 about the element. */
  lemma ValidIffPackage(e: Element, annotation: PackageAnnotation)
    ensures Validate(Describe(e, annotation)) <==> e.kind == PackageKind
    ensures Validate(Describe(e, annotation)) <==> Describe(e, annotation).element.Some?
    ensures !Validate(Describe(e, annotation)) ==>
      DescribeProblems(Describe(e, annotation), []) == [GenerationError(true, ER0008, Some(e.id))]
  {
  }

  /** `getPackageName()`: the package's qualified name. The source asserts
      the element is there, so only a valid description may be asked. */
  function PackageName(d: Description): string
    requires d.element.Some?
  {
    d.element.value.qualifiedName
  }

  /** `getBuilderClassName()`: the annotation's builder name. */
  function BuilderClassName(d: Description): string
    requires d.element.Some?
  {
    d.annotation.builderName
  }

  /** `getAccessLevel()`: the annotation's access level. */
  function Access(d: Description): AccessLevel
    requires d.element.Some?
  {
    d.annotation.access
  }

  /** A described package yields its own name and the annotation's values. */
  lemma PackageReadsBack(e: Element, annotation: PackageAnnotation)
    requires e.kind == PackageKind
    ensures var d := Describe(e, annotation);
      && PackageName(d) == e.qualifiedName
      && BuilderClassName(d) == annotation.builderName
      && Access(d) == annotation.access
  {
  }
}
