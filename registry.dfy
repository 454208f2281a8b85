/** The Common Interface registry: calling conventions, flag bits and the catalogue of
    named operations (`common_interface_functions`). */
module Registry {

  /** The calling convention of an operation (`Signatures`). */
  datatype Signature =
    | StdUnary   // (x, out=None, **kwargs)
    | StdBinary  // (x, y, out=None, **kwargs), result shape is the broadcast of x and y
    | Other1     // some other signature whose first argument alone is array-like

  /** The `Flags` bitmask. */
  type Flags = bv8

  const NoFlags: Flags := 0
  /** numpy has a function with exactly these semantics. */
  const HasNumpyImpl: Flags := 1
  /** The result dtype is always bool. */
  const BoolResult: Flags := 2
  /** Only valid on integer inputs (recorded, never consulted). */
  const IntsOnly: Flags := 4

  /** `flags & flag` is non-zero. */
  predicate HasFlag(flags: Flags, flag: Flags)
  {
    flags & flag != 0
  }

  /** One registry entry (`FunctionSpecification`). */
  datatype FunctionSpecification = FunctionSpecification(name: string, signature: Signature, flags: Flags)

  /** The entries, in the order the registry lists them. */
  const Catalogue: seq<FunctionSpecification> := [
      FunctionSpecification("absolute", StdUnary, HasNumpyImpl),
      FunctionSpecification("add", StdBinary, HasNumpyImpl),
      FunctionSpecification("arccos", StdUnary, HasNumpyImpl),
      FunctionSpecification("arccosh", StdUnary, HasNumpyImpl),
      FunctionSpecification("arcsin", StdUnary, HasNumpyImpl),
      FunctionSpecification("arcsinh", StdUnary, HasNumpyImpl),
      FunctionSpecification("arctan", StdUnary, HasNumpyImpl),
      FunctionSpecification("arctan2", StdUnary, HasNumpyImpl),
      FunctionSpecification("arctanh", StdUnary, HasNumpyImpl),
      FunctionSpecification("bitwise_and", StdBinary, HasNumpyImpl | IntsOnly),
      FunctionSpecification("bitwise_or", StdBinary, HasNumpyImpl | IntsOnly),
      FunctionSpecification("bitwise_xor", StdBinary, HasNumpyImpl | IntsOnly),
      FunctionSpecification("broadcast_to", Other1, HasNumpyImpl),
      FunctionSpecification("cbrt", StdUnary, HasNumpyImpl),
      FunctionSpecification("ceil", StdUnary, HasNumpyImpl),
      FunctionSpecification("cmask", Other1, BoolResult),
      FunctionSpecification("conjugate", StdUnary, HasNumpyImpl),
      FunctionSpecification("copysign", StdBinary, HasNumpyImpl),
      FunctionSpecification("cos", StdUnary, HasNumpyImpl),
      FunctionSpecification("cosh", StdUnary, HasNumpyImpl),
      FunctionSpecification("deg2rad", StdUnary, HasNumpyImpl),
      FunctionSpecification("divide", StdBinary, HasNumpyImpl),
      FunctionSpecification("get_dtype", Other1, NoFlags),
      FunctionSpecification("get_size", Other1, NoFlags),
      FunctionSpecification("equal", StdBinary, HasNumpyImpl | BoolResult),
      FunctionSpecification("exp", StdUnary, HasNumpyImpl),
      FunctionSpecification("exp2", StdUnary, HasNumpyImpl),
      FunctionSpecification("expm1", StdUnary, HasNumpyImpl),
      FunctionSpecification("fabs", StdUnary, HasNumpyImpl),
      FunctionSpecification("floor", StdUnary, HasNumpyImpl),
      FunctionSpecification("floor_divide", StdBinary, HasNumpyImpl),
      FunctionSpecification("fmax", StdBinary, HasNumpyImpl),
      FunctionSpecification("fmin", StdBinary, HasNumpyImpl),
      FunctionSpecification("fmod", StdBinary, HasNumpyImpl),
      FunctionSpecification("frexp", Other1, HasNumpyImpl),
      FunctionSpecification("greater", StdBinary, HasNumpyImpl | BoolResult),
      FunctionSpecification("greater_equal", StdBinary, HasNumpyImpl | BoolResult),
      FunctionSpecification("hypot", StdBinary, HasNumpyImpl),
      FunctionSpecification("invert", StdUnary, HasNumpyImpl),
      FunctionSpecification("isfinite", StdUnary, HasNumpyImpl | BoolResult),
      FunctionSpecification("isinf", StdUnary, HasNumpyImpl | BoolResult),
      FunctionSpecification("isnan", StdUnary, HasNumpyImpl | BoolResult),
      FunctionSpecification("ldexp", StdBinary, HasNumpyImpl),
      FunctionSpecification("left_shift", StdBinary, HasNumpyImpl | IntsOnly),
      FunctionSpecification("less", StdBinary, HasNumpyImpl | BoolResult),
      FunctionSpecification("less_equal", StdBinary, HasNumpyImpl | BoolResult),
      FunctionSpecification("log", StdUnary, HasNumpyImpl),
      FunctionSpecification("log10", StdUnary, HasNumpyImpl),
      FunctionSpecification("log1p", StdUnary, HasNumpyImpl),
      FunctionSpecification("log2", StdUnary, HasNumpyImpl),
      FunctionSpecification("logaddexp", StdBinary, HasNumpyImpl),
      FunctionSpecification("logaddexp2", StdBinary, HasNumpyImpl),
      FunctionSpecification("logical_and", StdBinary, HasNumpyImpl | BoolResult),
      FunctionSpecification("logical_or", StdBinary, HasNumpyImpl | BoolResult),
      FunctionSpecification("logical_not", StdUnary, HasNumpyImpl | BoolResult),
      FunctionSpecification("logical_xor", StdBinary, HasNumpyImpl | BoolResult),
      FunctionSpecification("maximum", StdBinary, HasNumpyImpl),
      FunctionSpecification("minimum", StdBinary, HasNumpyImpl),
      FunctionSpecification("modf", Other1, HasNumpyImpl),
      FunctionSpecification("multiply", StdBinary, HasNumpyImpl),
      FunctionSpecification("negative", StdUnary, HasNumpyImpl),
      FunctionSpecification("nextafter", StdBinary, HasNumpyImpl),
      FunctionSpecification("not_equal", StdBinary, HasNumpyImpl | BoolResult),
      FunctionSpecification("power", StdBinary, HasNumpyImpl),
      FunctionSpecification("rad2deg", StdUnary, HasNumpyImpl),
      FunctionSpecification("reciprocal", StdUnary, HasNumpyImpl),
      FunctionSpecification("remainder", StdBinary, HasNumpyImpl),
      FunctionSpecification("repvals", StdUnary, NoFlags),
      FunctionSpecification("reshape", Other1, HasNumpyImpl),
      FunctionSpecification("right_shift", StdBinary, HasNumpyImpl | IntsOnly),
      FunctionSpecification("rint", StdUnary, HasNumpyImpl),
      FunctionSpecification("shape", Other1, HasNumpyImpl),
      FunctionSpecification("sign", StdUnary, HasNumpyImpl),
      FunctionSpecification("signbit", StdUnary, HasNumpyImpl | BoolResult),
      FunctionSpecification("sin", StdUnary, HasNumpyImpl),
      FunctionSpecification("sinh", StdUnary, HasNumpyImpl),
      FunctionSpecification("spacing", StdUnary, HasNumpyImpl),
      FunctionSpecification("sqrt", StdUnary, HasNumpyImpl),
      FunctionSpecification("square", StdUnary, HasNumpyImpl),
      FunctionSpecification("subtract", StdBinary, HasNumpyImpl),
      FunctionSpecification("tan", StdUnary, HasNumpyImpl),
      FunctionSpecification("tanh", StdUnary, HasNumpyImpl),
      FunctionSpecification("true_divide", StdBinary, HasNumpyImpl),
      FunctionSpecification("trunc", StdUnary, HasNumpyImpl)
    ]

  /** `dict((s.name, s) for s in specs)`: each entry is stored under its name, a later
      entry replacing an earlier one of the same name. */
  function IndexByName(specs: seq<FunctionSpecification>): map<string, FunctionSpecification>
  {
    if specs == [] then map[]
    else
      var last := specs[|specs| - 1];
      IndexByName(specs[..|specs| - 1])[last.name := last]
  }

  /** `common_interface_functions`. */
  function CommonInterfaceFunctions(): map<string, FunctionSpecification>
  {
    IndexByName(Catalogue)
  }

  /** A name is a key of the index exactly when some entry has that name, and it maps to
      the last such entry. */
  lemma {:induction false} IndexByNameSpec(specs: seq<FunctionSpecification>, name: string)
    ensures name in IndexByName(specs) <==> exists k :: 0 <= k < |specs| && specs[k].name == name
    ensures name in IndexByName(specs) ==>
      exists k :: 0 <= k < |specs| && specs[k].name == name && IndexByName(specs)[name] == specs[k] &&
        forall k' :: k < k' < |specs| ==> specs[k'].name != name
  {
    if specs != [] {
      var init := specs[..|specs| - 1];
      var last := specs[|specs| - 1];
      IndexByNameSpec(init, name);
      if name != last.name {
        if name in IndexByName(init) {
          var k :| 0 <= k < |init| && init[k].name == name && IndexByName(init)[name] == init[k] &&
            forall k' :: k < k' < |init| ==> init[k'].name != name;
          assert specs[k] == init[k];
          assert forall k' :: k < k' < |specs| - 1 ==> specs[k'] == init[k'];
        }
        if exists k :: 0 <= k < |specs| && specs[k].name == name {
          var k :| 0 <= k < |specs| && specs[k].name == name;
          assert init[k] == specs[k];
        }
      }
    }
  }

  /** Every registered operation is stored under its own name. */
  lemma RegistryKeysAreNames(name: string)
    requires name in CommonInterfaceFunctions()
    ensures CommonInterfaceFunctions()[name].name == name
  {
    IndexByNameSpec(Catalogue, name);
  }
}
