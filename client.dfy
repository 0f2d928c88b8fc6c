/**
 * The `Magnitude` client singleton: an API key read from the environment
 * or supplied by `init`, and an initialisation flag.
 *
 * The static side of the class (the `instance` slot and the environment it
 * reads when it first constructs the instance) is the object `Statics`.
 */
module Client {
  import opened Wrappers
  import opened Types

  /** `process.env.MAGNITUDE_API_KEY || null`: an unset or empty variable gives null. */
  function KeyFromEnv(env: Option<string>): (k: Option<string>)
    ensures k.Some? <==> env.Some? && env.value != ""
    ensures k.Some? ==> k == env
  {
    match env
    case Some(v) => if v == "" then None else Some(v)
    case None => None
  }

  /** `!this.apiKey` is false: a key is present and is not the empty string. */
  predicate UsableKey(k: Option<string>)
  {
    k.Some? && k.value != ""
  }

  const NotInitializedMessage: string := "Magnitude not initialized. Call Magnitude.init() first."

  class Magnitude {
    var apiKey: Option<string>
    var isInitialized: bool

    /** The flag says whether a key (possibly the empty one) has been stored. */
    predicate Valid()
      reads this
    {
      isInitialized <==> apiKey.Some?
    }

    /** The private constructor: the key from the environment, initialised iff there is one. */
    constructor(env: Option<string>)
      ensures Valid()
      ensures apiKey == KeyFromEnv(env)
      ensures isInitialized <==> UsableKey(env)
    {
      apiKey := KeyFromEnv(env);
      isInitialized := KeyFromEnv(env).Some?;
    }

    /** `getApiKey()`: the stored key when it is usable; otherwise the method throws. */
    method GetApiKey() returns (r: Result<string, Error>)
      ensures r.Ok? <==> UsableKey(apiKey)
      ensures r.Ok? ==> Some(r.value) == apiKey
      ensures r.Err? ==> r.error == Thrown(NotInitializedMessage)
    {
      if apiKey.None? || apiKey.value == "" {
        return Err(Thrown(NotInitializedMessage));
      }
      return Ok(apiKey.value);
    }
  }

  /** The static members of `Magnitude`. */
  class Statics {
    var instance: Magnitude?
    /** The value of `MAGNITUDE_API_KEY` in the process environment. */
    const env: Option<string>

    predicate Valid()
      reads this, instance
    {
      instance != null ==> instance.Valid()
    }

    constructor(env: Option<string>)
      ensures Valid() && instance == null && this.env == env
    {
      instance := null;
      this.env := env;
    }

    /** `getInstance()`: constructs the instance on the first call and returns the same one afterwards. */
    method GetInstance() returns (m: Magnitude)
      requires Valid()
      modifies this
      ensures Valid() && instance == m
      ensures old(instance) != null ==> m == old(instance)
      ensures old(instance) == null ==> fresh(m) && m.apiKey == KeyFromEnv(env) && m.isInitialized == UsableKey(env)
    {
      if instance == null {
        instance := new Magnitude(env);
      }
      m := instance;
    }

    /** `init(apiKey)`: stores the key on the single instance and marks it initialised, whatever the key. */
    method Init(k: string)
      requires Valid()
      modifies this, instance
      ensures Valid() && instance != null
      ensures old(instance) != null ==> instance == old(instance)
      ensures old(instance) == null ==> fresh(instance)
      ensures instance.apiKey == Some(k) && instance.isInitialized
    {
      var m := GetInstance();
      m.apiKey := Some(k);
      m.isInitialized := true;
    }

    /** `isInitialized()`: the flag of the (possibly just constructed) instance. */
    method IsInitialized() returns (b: bool)
      requires Valid()
      modifies this
      ensures Valid() && instance != null
      ensures old(instance) != null ==> instance == old(instance) && b == old(instance.isInitialized)
      ensures old(instance) == null ==> fresh(instance) && b == UsableKey(env) && instance.apiKey == KeyFromEnv(env)
    {
      var m := GetInstance();
      b := m.isInitialized;
    }
  }

  /**
   * `init("")` marks the client initialised, yet `getApiKey()` still throws,
   * because the empty key is falsy. The environment does not matter.
   */
  method InitWithEmptyKey(env: Option<string>) returns (initialized: bool, key: Result<string, Error>)
    ensures initialized
    ensures key == Err(Thrown(NotInitializedMessage))
  {
    var statics := new Statics(env);
    statics.Init("");
    initialized := statics.IsInitialized();
    var m := statics.GetInstance();
    key := m.GetApiKey();
  }

  /** Without `init`, the client is usable exactly when the environment supplies a non-empty key, and returns that key. */
  method FromEnvironment(env: Option<string>) returns (initialized: bool, key: Result<string, Error>)
    ensures initialized <==> UsableKey(env)
    ensures key.Ok? <==> UsableKey(env)
    ensures key.Ok? ==> Some(key.value) == env
  {
    var statics := new Statics(env);
    initialized := statics.IsInitialized();
    var m := statics.GetInstance();
    key := m.GetApiKey();
  }

  /** `init(k)` with a non-empty key makes `getApiKey()` return exactly `k`, after or before a first `getInstance()`. */
  method InitThenKey(env: Option<string>, k: string, touchFirst: bool) returns (key: Result<string, Error>)
    requires k != ""
    ensures key == Ok(k)
  {
    var statics := new Statics(env);
    if touchFirst {
      var first := statics.GetInstance();
    }
    statics.Init(k);
    var m := statics.GetInstance();
    key := m.GetApiKey();
  }

  /** Two calls of `getInstance()` return the same object. */
  method InstanceIsShared(env: Option<string>) returns (same: bool)
    ensures same
  {
    var statics := new Statics(env);
    var a := statics.GetInstance();
    var b := statics.GetInstance();
    same := a == b;
  }
}
