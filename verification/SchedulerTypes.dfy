// Component masks, access declarations and the definitions a builder holds.
module SchedulerTypes {

  const COMPONENT_COUNT := 12

  type Component = c: nat | c < COMPONENT_COUNT

  /** A mask is the set of components whose bit it carries. */
  type Mask = set<Component>

  predicate Contains(mask: Mask, candidate: Mask) {
    candidate <= mask
  }

  predicate Intersects(mask: Mask, other: Mask) {
    mask * other != {}
  }

  datatype AccessSpec = AccessSpec(queries: seq<Mask>, readMask: Mask, writeMask: Mask, structural: seq<Mask>) {
    predicate Validate() {
      !Intersects(readMask, writeMask) && {} !in queries
    }

    predicate HasStructuralEffects() {
      |structural| > 0
    }

    /** The columns a system with this access may look at. */
    function Footprint(): Mask {
      readMask + writeMask
    }
  }

  /** No component is both read and written, and every query asks for something. */
  ghost predicate Sensible(access: AccessSpec) {
    && (forall c :: c in access.readMask ==> c !in access.writeMask)
    && forall query :: query in access.queries ==> exists c :: c in query
  }

  lemma ValidatesExactly(access: AccessSpec)
    ensures access.Validate() <==> Sensible(access)
  {
    if c :| c in access.readMask && c in access.writeMask {
      assert c in access.readMask * access.writeMask;
    }
    if {} !in access.queries {
      forall query | query in access.queries ensures exists c :: c in query {
        assert query != {};
      }
    }
  }

  datatype SystemDef = SystemDef(id: string, access: AccessSpec, after: seq<string>, before: seq<string>, order: nat)

  datatype PhaseDef = PhaseDef(id: string, after: seq<string>, order: nat, systems: seq<SystemDef>)

  type Phases = map<string, PhaseDef>

  datatype Result<+T, +E> = Ok(value: T) | Err(error: E)

  datatype CompileError = UnknownPhase | PhaseCycle | ForeignSystem | SystemCycle

  /** Some mask of `dirty` covers some query of `queries`. */
  predicate Touches(dirty: set<Mask>, queries: seq<Mask>) {
    exists mask, i :: mask in dirty && 0 <= i < |queries| && Contains(mask, queries[i])
  }

  /** No archetype that is dirty has all the components of a query. */
  ghost predicate Unqueried(dirty: set<Mask>, queries: seq<Mask>) {
    forall mask, i :: mask in dirty && 0 <= i < |queries| ==> Lacks(mask, queries[i])
  }

  ghost predicate Lacks(mask: Mask, query: Mask) {
    exists c :: c in query && c !in mask
  }

  lemma TouchedExactly(dirty: set<Mask>, queries: seq<Mask>)
    ensures Touches(dirty, queries) <==> !Unqueried(dirty, queries)
  {
    forall mask, i | mask in dirty && 0 <= i < |queries|
      ensures Contains(mask, queries[i]) <==> !Lacks(mask, queries[i])
    {
    }
  }

  function Elements<T>(s: seq<T>): set<T> {
    set x | x in s
  }

  predicate SystemsConflict(a: AccessSpec, b: AccessSpec) {
    || Intersects(a.writeMask, b.readMask + b.writeMask)
    || Intersects(b.writeMask, a.readMask + a.writeMask)
    || Touches(Elements(a.structural), b.queries)
    || Touches(Elements(b.structural), a.queries)
    || (|a.structural| > 0 && |b.structural| > 0)
  }
}
