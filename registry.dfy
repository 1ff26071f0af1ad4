/**
 * `PRIMITVE_FACTORY` with `register_primitive` and `get_op`: a map from
 * primitive names to layer factories with an override guard. Factories are
 * kept abstract as values of a type parameter.
 */
module Registry {
  import opened Wrappers

  datatype RegistryError =
    | AlreadyRegistered(name: string)   // registering a taken name without `override`
    | NotRegistered(name: string)       // `get_op` of an unknown name

  /** The names `PRIMITVE_FACTORY` holds when the module is loaded. */
  const BuiltinPrimitives: seq<string> := [
    "none", "avg_pool_3x3", "max_pool_3x3", "skip_connect", "res_reduce_block",
    "sep_conv_3x3", "sep_conv_3x3_exp3", "sep_conv_3x3_exp6",
    "sep_conv_5x5", "sep_conv_5x5_exp3", "sep_conv_5x5_exp6", "sep_conv_7x7",
    "dil_conv_3x3", "dil_conv_5x5", "conv_7x1_1x7",
    "relu_conv_bn_1x1", "relu_conv_bn_3x3", "relu_conv_bn_5x5",
    "conv_bn_relu_1x1", "conv_bn_relu_3x3", "conv_bn_3x3", "conv_bn_relu_5x5",
    "conv_1x1", "inspect_block", "conv_3x3", "bn_relu",
    "imagenet_stem0", "tanh", "relu", "sigmoid", "identity"]

  /**
   * The table after `register_primitive(name, func, override)`: refused when
   * the name is taken and `override` is false; otherwise `name` maps to
   * `func` and every other entry is unchanged.
   */
  function Register<F>(factory: map<string, F>, name: string, func: F, override: bool): (r: Result<map<string, F>, RegistryError>)
    ensures r.Err? <==> name in factory && !override
    ensures r.Err? ==> r.error == AlreadyRegistered(name)
    ensures r.Ok? ==> r.value.Keys == factory.Keys + {name} && r.value[name] == func
    ensures r.Ok? ==> forall n :: n in factory && n != name ==> r.value[n] == factory[n]
  {
    if name in factory && !override then Err(AlreadyRegistered(name))
    else Ok(factory[name := func])
  }

  /** `get_op(name)`: the stored factory, or an error for an unregistered name. */
  function Lookup<F>(factory: map<string, F>, name: string): (r: Result<F, RegistryError>)
    ensures r.Ok? <==> name in factory
    ensures r.Ok? ==> r.value == factory[name]
    ensures r.Err? ==> r.error == NotRegistered(name)
  {
    if name in factory then Ok(factory[name]) else Err(NotRegistered(name))
  }

  /** After a successful registration `get_op(name)` returns `func` and every other lookup is as before. */
  lemma LookupAfterRegister<F>(factory: map<string, F>, name: string, func: F, override: bool, other: string)
    requires Register(factory, name, func, override).Ok?
    ensures Lookup(Register(factory, name, func, override).value, name) == Ok(func)
    ensures other != name ==> Lookup(Register(factory, name, func, override).value, other) == Lookup(factory, other)
  {
  }

  /** Registering never removes a name: what `get_op` found before it still finds. */
  lemma RegisterKeepsNames<F>(factory: map<string, F>, name: string, func: F, override: bool, other: string)
    requires Lookup(factory, other).Ok?
    ensures Register(factory, name, func, override).Ok? ==> Lookup(Register(factory, name, func, override).value, other).Ok?
  {
  }

  /** The registry object: one shared table, updated in place. */
  class PrimitiveRegistry<F> {
    var factory: map<string, F>

    /** The table as loaded, each builtin name bound to the factory `builtin` gives it. */
    constructor (builtin: string -> F)
      ensures factory.Keys == set n | n in BuiltinPrimitives
      ensures forall n :: n in factory ==> factory[n] == builtin(n)
    {
      factory := map n | n in BuiltinPrimitives :: builtin(n);
    }

    method RegisterPrimitive(name: string, func: F, override: bool) returns (r: Result<(), RegistryError>)
      modifies this
      ensures match Register(old(factory), name, func, override)
        case Ok(m) => r == Ok(()) && factory == m
        case Err(e) => r == Err(e) && factory == old(factory)
    {
      if name in factory && !override {
        return Err(AlreadyRegistered(name));
      }
      factory := factory[name := func];
      r := Ok(());
    }

    method GetOp(name: string) returns (r: Result<F, RegistryError>)
      ensures r == Lookup(factory, name)
    {
      if name !in factory {
        return Err(NotRegistered(name));
      }
      r := Ok(factory[name]);
    }
  }

  /** A builtin name cannot be registered again without `override`. */
  method RegisterBuiltinWithoutOverride<F>(builtin: string -> F, func: F) returns (r: Result<(), RegistryError>)
    ensures r == Err(AlreadyRegistered("sep_conv_3x3"))
  {
    var registry := new PrimitiveRegistry(builtin);
    assert "sep_conv_3x3" in BuiltinPrimitives;
    r := registry.RegisterPrimitive("sep_conv_3x3", func, false);
  }
}
