/**
 * The configuration object of a RESTful application: registered classes, singletons,
 * resources, resource finders, a class loader and a property map. Changes go through an
 * internal state object that either applies them (mutable) or rejects them (immutable).
 */
module AppConfig {
  import opened Results

  /** Identities of the objects the configuration holds; only their equality matters here. */
  datatype ClassRef = ClassRef(name: string)
  datatype Resource = Resource(name: string, path: string)
  datatype ResourceFinder = ResourceFinder(id: nat)
  datatype Singleton = Singleton(id: nat)
  datatype ClassLoader = ClassLoader(id: nat)

  /** A property value: a `Boolean`, any other object (seen through its `toString`), or null. */
  datatype Value = Flag(flag: bool) | Text(text: string) | Null

  /** `IllegalStateException`, `UnsupportedOperationException`, `NullPointerException`. */
  datatype ConfigError = NotModifiable | Unsupported | NullPointer

  /** Which `InternalState` implementation the configuration delegates its changes to. */
  datatype InternalState = Mutable | Immutable

  /** All fields of a configuration, as one value. */
  datatype Snapshot = Snapshot(
    classLoader: Option<ClassLoader>, classes: set<ClassRef>, singletons: set<Singleton>,
    resources: set<Resource>, resourceFinders: set<ResourceFinder>, properties: map<string, Value>,
    internalState: InternalState)

  /** ASCII lower case. */
  function Lower(c: char): (r: char)
    ensures 'A' <= c <= 'Z' ==> r as int == c as int + 32
    ensures !('A' <= c <= 'Z') ==> r == c
  {
    if 'A' <= c <= 'Z' then (c as int + 32) as char else c
  }

  /** `String.equalsIgnoreCase`: same length, and equal characters up to case. */
  function EqualsIgnoreCase(a: string, b: string): (r: bool)
    ensures r <==> |a| == |b| && forall i :: 0 <= i < |a| ==> Lower(a[i]) == Lower(b[i])
  {
    if |a| != |b| then false
    else if a == [] then true
    else Lower(a[0]) == Lower(b[0]) && EqualsIgnoreCase(a[1..], b[1..])
  }

  /** `Boolean.parseBoolean`: true exactly for "true" in any case. */
  function ParseBoolean(s: string): (r: bool)
    ensures r <==> |s| == 4 && Lower(s[0]) == 't' && Lower(s[1]) == 'r' && Lower(s[2]) == 'u' && Lower(s[3]) == 'e'
  {
    EqualsIgnoreCase(s, "true")
  }

  class ApplicationConfig {
    var classLoader: Option<ClassLoader>
    var classes: set<ClassRef>
    var singletons: set<Singleton>
    var resources: set<Resource>
    var resourceFinders: set<ResourceFinder>
    var properties: map<string, Value>
    var internalState: InternalState

    /** The current value of every field. */
    function State(): Snapshot
      reads this
    {
      Snapshot(classLoader, classes, singletons, resources, resourceFinders, properties, internalState)
    }

    /**
     * A fresh configuration: empty collections, the context class loader, and a mutable
     * internal state.
     */
    constructor(contextClassLoader: Option<ClassLoader>)
      ensures State() == Snapshot(contextClassLoader, {}, {}, {}, {}, map[], Mutable)
    {
      classLoader := contextClassLoader;
      classes := {};
      singletons := {};
      resources := {};
      resourceFinders := {};
      properties := map[];
      internalState := Mutable;
    }

    /** `lock()` does nothing: the internal state stays as it is, so it never becomes immutable. */
    method Lock()
      ensures State() == old(State())
    {
    }

    /** `addClasses`: the classes are added, or an immutable configuration rejects the change. */
    method AddClasses(cs: set<ClassRef>) returns (r: Outcome<ConfigError>)
      modifies this
      ensures old(internalState) == Immutable ==> r == Fail(NotModifiable) && State() == old(State())
      ensures old(internalState) == Mutable ==> r == Pass && State() == old(State()).(classes := old(classes) + cs)
    {
      if internalState == Immutable {
        return Fail(NotModifiable);
      }
      classes := classes + cs;
      r := Pass;
    }

    /** `addResources` of the internal state. */
    method AddResources(rs: set<Resource>) returns (r: Outcome<ConfigError>)
      modifies this
      ensures old(internalState) == Immutable ==> r == Fail(NotModifiable) && State() == old(State())
      ensures old(internalState) == Mutable ==> r == Pass && State() == old(State()).(resources := old(resources) + rs)
    {
      if internalState == Immutable {
        return Fail(NotModifiable);
      }
      resources := resources + rs;
      r := Pass;
    }

    /** `addFinder`: delegated to the internal state. */
    method AddFinder(f: ResourceFinder) returns (r: Outcome<ConfigError>)
      modifies this
      ensures old(internalState) == Immutable ==> r == Fail(NotModifiable) && State() == old(State())
      ensures old(internalState) == Mutable ==>
        r == Pass && State() == old(State()).(resourceFinders := old(resourceFinders) + {f})
    {
      if internalState == Immutable {
        return Fail(NotModifiable);
      }
      resourceFinders := resourceFinders + {f};
      r := Pass;
    }

    /** `addProperties`: delegated to the internal state; given keys are overwritten, others kept. */
    method AddProperties(ps: map<string, Value>) returns (r: Outcome<ConfigError>)
      modifies this
      ensures old(internalState) == Immutable ==> r == Fail(NotModifiable) && State() == old(State())
      ensures old(internalState) == Mutable ==> r == Pass && State() == old(State()).(properties := old(properties) + ps)
      ensures old(internalState) == Mutable ==> forall k :: k in ps ==> GetProperty(k) == ps[k]
      ensures old(internalState) == Mutable ==> forall k :: k !in ps ==> GetProperty(k) == old(GetProperty(k))
    {
      if internalState == Immutable {
        return Fail(NotModifiable);
      }
      properties := properties + ps;
      r := Pass;
    }

    /** `addSingletons` of the internal state. */
    method AddSingletons(ss: set<Singleton>) returns (r: Outcome<ConfigError>)
      modifies this
      ensures old(internalState) == Immutable ==> r == Fail(NotModifiable) && State() == old(State())
      ensures old(internalState) == Mutable ==>
        r == Pass && State() == old(State()).(singletons := old(singletons) + ss)
    {
      if internalState == Immutable {
        return Fail(NotModifiable);
      }
      singletons := singletons + ss;
      r := Pass;
    }

    /** `setClassLoader` of the internal state. */
    method SetClassLoader(cl: Option<ClassLoader>) returns (r: Outcome<ConfigError>)
      modifies this
      ensures old(internalState) == Immutable ==> r == Fail(NotModifiable) && State() == old(State())
      ensures old(internalState) == Mutable ==> r == Pass && State() == old(State()).(classLoader := cl)
    {
      if internalState == Immutable {
        return Fail(NotModifiable);
      }
      classLoader := cl;
      r := Pass;
    }

    /** `setProperty` of the internal state: the key is overwritten, other keys kept. */
    method SetProperty(name: string, value: Value) returns (r: Outcome<ConfigError>)
      modifies this
      ensures old(internalState) == Immutable ==> r == Fail(NotModifiable) && State() == old(State())
      ensures old(internalState) == Mutable ==>
        r == Pass && State() == old(State()).(properties := old(properties)[name := value])
      ensures old(internalState) == Mutable ==> GetProperty(name) == value
      ensures old(internalState) == Mutable ==> forall k :: k != name ==> GetProperty(k) == old(GetProperty(k))
    {
      if internalState == Immutable {
        return Fail(NotModifiable);
      }
      properties := properties[name := value];
      r := Pass;
    }

    /**
     * `setApplication` of the internal state: rejected when immutable; when mutable it
     * hands over to `_setApplication`, which is unsupported. Either way nothing changes.
     */
    method SetApplication() returns (r: Outcome<ConfigError>)
      ensures r == Fail(if internalState == Immutable then NotModifiable else Unsupported)
    {
      if internalState == Immutable {
        return Fail(NotModifiable);
      }
      r := Fail(Unsupported);
    }

    /** `getProperty`: the stored value, or null for a missing key. */
    function GetProperty(name: string): (v: Value)
      reads this
      ensures v == Null <==> name !in properties || properties[name] == Null
      ensures v != Null ==> name in properties && properties[name] == v
    {
      if name in properties then properties[name] else Null
    }

    /**
     * `isProperty`: false for a missing key; a `Boolean` as it is; any other value is
     * parsed from its string form; a null value fails on `toString`.
     */
    function IsProperty(name: string): (r: Result<bool, ConfigError>)
      reads this
      ensures name !in properties ==> r == Ok(false)
      ensures r.Err? <==> name in properties && properties[name] == Null
      ensures r == Ok(true) <==>
        name in properties
        && (properties[name] == Flag(true) || (properties[name].Text? && ParseBoolean(properties[name].text)))
    {
      if name in properties then
        match properties[name]
        case Flag(b) => Ok(b)
        case Text(s) => Ok(ParseBoolean(s))
        case Null => Err(NullPointer)
      else Ok(false)
    }
  }

  /** A configuration built by the constructor stays mutable, whatever `Lock` and the setters do. */
  method NeverLocked(contextClassLoader: Option<ClassLoader>, f: ResourceFinder, ps: map<string, Value>)
    returns (config: ApplicationConfig)
    ensures config.internalState == Mutable
    ensures config.resourceFinders == {f} && config.properties == ps
  {
    config := new ApplicationConfig(contextClassLoader);
    config.Lock();
    var r := config.AddFinder(f);
    assert r == Pass;
    r := config.AddProperties(ps);
    assert map[] + ps == ps;
    config.Lock();
  }
}
