/** `which_field_type` of the `IntoPyDict` derive: how a struct field's type
    is classified before conversion code is generated for it. The type is a
    small stand-in for `syn::Type`: a path of segments, each with an
    identifier and its generic arguments, possibly behind a qualified self
    (`<T as Trait>::…`), or any other kind of type. */
module FieldType {
  import opened Wrappers

  datatype MappedFieldType = IsBox | IsOption | IsOptionBox | IsAny

  datatype Ty = PathTy(qself: bool, segments: seq<Segment>) | OtherTy
  datatype Segment = Segment(ident: string, arguments: PathArguments)
  /** `syn::PathArguments`: none, `<…>`, or `(…) -> …`. */
  datatype PathArguments = NoArguments | AngleBracketed(args: seq<GenericArgument>) | Parenthesized
  /** `syn::GenericArgument`: a type, or anything else (a lifetime, a
      constant, a binding or a constraint). */
  datatype GenericArgument = TypeArg(ty: Ty) | OtherArg

  /** A path type without a qualified self: the only kind classified by
      its segments. */
  predicate PlainPath(ty: Ty) {
    ty.PathTy? && !ty.qself
  }

  predicate HasSegment(segments: seq<Segment>, name: string) {
    exists i :: 0 <= i < |segments| && segments[i].ident == name
  }

  /** The branch that reads generic arguments: a plain path with an
      `Option` segment and no `Box` segment. */
  predicate OptionBranch(ty: Ty) {
    PlainPath(ty) && !HasSegment(ty.segments, "Box") && HasSegment(ty.segments, "Option")
  }

  /** The single type argument of the first segment, if that is what the
      first segment carries. */
  predicate SingleTypeArg(ty: Ty)
    requires ty.PathTy? && |ty.segments| > 0
  {
    var a := ty.segments[0].arguments;
    a.AngleBracketed? && |a.args| == 1 && a.args[0].TypeArg?
  }

  /** `which_field_type`. A `Box` segment anywhere wins; otherwise an
      `Option` segment anywhere sends the classifier to the arguments of the
      FIRST segment, which must be exactly one type; that type is classified
      in turn. Each outcome is characterised below. */
  function WhichFieldType(ty: Ty): (r: Outcome<MappedFieldType>)
    // a plain path naming `Box` in any segment, and only that, is a box
    ensures r == Ok(IsBox) <==> PlainPath(ty) && HasSegment(ty.segments, "Box")
    // `Option<Box<…>>`, and only that: the first segment's one type argument
    // is a plain path with a `Box` segment
    ensures r == Ok(IsOptionBox) <==>
      OptionBranch(ty) && |ty.segments| > 0 && SingleTypeArg(ty) &&
      PlainPath(ty.segments[0].arguments.args[0].ty) &&
      HasSegment(ty.segments[0].arguments.args[0].ty.segments, "Box")
    // `Option<T>` where `T` classifies, without panicking, as no box
    ensures r == Ok(IsOption) <==>
      OptionBranch(ty) && |ty.segments| > 0 && SingleTypeArg(ty) &&
      WhichFieldType(ty.segments[0].arguments.args[0].ty).Ok? &&
      WhichFieldType(ty.segments[0].arguments.args[0].ty).value != IsBox
    // not a plain path, neither wrapper named, or `Option` named while the
    // first segment carries no arguments
    ensures r == Ok(IsAny) <==>
      !PlainPath(ty) ||
      (!HasSegment(ty.segments, "Box") && !HasSegment(ty.segments, "Option")) ||
      (OptionBranch(ty) && |ty.segments| > 0 && ty.segments[0].arguments.NoArguments?)
    // the `Option` branch with parenthesised arguments, a count of
    // angle-bracketed arguments other than one, one argument that is not a
    // type, or one type on which the classifier itself panics
    ensures r.Panic? <==>
      OptionBranch(ty) && |ty.segments| > 0 &&
      var a := ty.segments[0].arguments;
      a.Parenthesized? ||
      (a.AngleBracketed? && |a.args| != 1) ||
      (a.AngleBracketed? && |a.args| == 1 && a.args[0].OtherArg?) ||
      (a.AngleBracketed? && |a.args| == 1 && a.args[0].TypeArg? && WhichFieldType(a.args[0].ty).Panic?)
    decreases ty
  {
    if !PlainPath(ty) then Ok(IsAny)
    else if HasSegment(ty.segments, "Box") then Ok(IsBox)
    else if HasSegment(ty.segments, "Option") then
      var first := ty.segments[0];
      match first.arguments
      case AngleBracketed(args) =>
        if |args| != 1 then Panic
        else (
          match args[0]
          case TypeArg(t) =>
            assert args[0] in args;
            var inner :- WhichFieldType(t);
            Ok(if inner == IsBox then IsOptionBox else IsOption)
          case OtherArg => Panic)
      case NoArguments => Ok(IsAny)
      case Parenthesized => Panic
    else Ok(IsAny)
  }

  // ---------------------------------------------------------------------
  // Types written out
  // ---------------------------------------------------------------------

  /** A one-segment path `name<args>`, or `name` when `args` is empty. */
  function Named(name: string, args: seq<Ty>): Ty {
    PathTy(false, [Segment(name, if args == [] then NoArguments
                                 else AngleBracketed(seq(|args|, i requires 0 <= i < |args| => TypeArg(args[i]))))])
  }

  /** `Option<T>` for any `T` that classifies as something other than a box,
      without panicking, is IsOption. */
  lemma {:induction false} OptionOfNonBox(t: Ty)
    requires WhichFieldType(t).Ok? && WhichFieldType(t).value != IsBox
    ensures WhichFieldType(Named("Option", [t])) == Ok(IsOption)
  {
    var ty := Named("Option", [t]);
    assert ty.segments[0].ident == "Option";
    assert !HasSegment(ty.segments, "Box");
  }

  /** `Option<Box<T>>` is IsOptionBox, while `Box<Option<T>>` is a box. */
  lemma {:induction false} BoxedExamples()
    ensures WhichFieldType(Named("Option", [Named("Box", [Named("T", [])])])) == Ok(IsOptionBox)
    ensures WhichFieldType(Named("Box", [Named("Option", [Named("T", [])])])) == Ok(IsBox)
  {
    var boxT := Named("Box", [Named("T", [])]);
    assert boxT.segments[0].ident == "Box";
    var optBox := Named("Option", [boxT]);
    assert optBox.segments[0].ident == "Option";
    assert !HasSegment(optBox.segments, "Box");
    var boxOpt := Named("Box", [Named("Option", [Named("T", [])])]);
    assert boxOpt.segments[0].ident == "Box";
  }

  /** Only one level is looked through: `Option<Option<Box<T>>>` is an
      ordinary option. */
  lemma {:induction false} NestedOption()
    ensures WhichFieldType(Named("Option", [Named("Option", [Named("Box", [Named("T", [])])])])) == Ok(IsOption)
  {
    BoxedExamples();
    OptionOfNonBox(Named("Option", [Named("Box", [Named("T", [])])]));
  }

  /** `std::option::Option<u16>`: the arguments are read from `std`, which
      has none, so the field is IsAny. */
  lemma {:induction false} QualifiedOption()
    ensures WhichFieldType(PathTy(false, [
      Segment("std", NoArguments), Segment("option", NoArguments),
      Segment("Option", AngleBracketed([TypeArg(Named("u16", []))]))])) == Ok(IsAny)
  {
    var ty := PathTy(false, [
      Segment("std", NoArguments), Segment("option", NoArguments),
      Segment("Option", AngleBracketed([TypeArg(Named("u16", []))]))]);
    assert ty.segments[2].ident == "Option";
    assert !HasSegment(ty.segments, "Box") by {
      assert "std" != "Box" && "option" != "Box" && "Option" != "Box";
    }
  }

  /** Two generic arguments to `Option` panic. */
  lemma {:induction false} TwoArguments(a: Ty, b: Ty)
    ensures WhichFieldType(Named("Option", [a, b])).Panic?
  {
    var ty := Named("Option", [a, b]);
    assert ty.segments[0].ident == "Option";
    assert !HasSegment(ty.segments, "Box");
  }
}
