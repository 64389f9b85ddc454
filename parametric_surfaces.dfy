/** `map_uniform_locations` of the `ParametricSurface` trait in
    src/parametric_surfaces/mod.rs: the table of uniform locations the torus
    builds once at construction.

    The GL query `gl.get_uniform_location(program, name)` is a parameter
    `lookup`: whatever the linked program answers for each name. The
    location type is a type parameter. */
module ParametricSurfaces {
  import opened Wrappers

  /** The uniform names, in the order they are looked up. */
  const UniformNames: seq<string> := ["p", "v", "m"]

  /** The error raised for the first name with no location. */
  function MissingUniform(name: string): (message: string)
    ensures |message| == |name| + 33
    ensures message[23..|message| - 10] == name
  {
    "Failed to get uniform, " + name + ", location"
  }

  /** `UniformNames[i]` is the first name that `lookup` has no location for. */
  ghost predicate FirstMissing<L>(lookup: string -> Option<L>, i: int)
  {
    && 0 <= i < |UniformNames|
    && lookup(UniformNames[i]).None?
    && (forall j :: 0 <= j < i ==> lookup(UniformNames[j]).Some?)
  }

  /** Builds the name-to-location table. On success its keys are exactly the
      three names and each value is what `lookup` answered; it fails exactly
      when some name has no location, naming the first such one, and looks up
      no name after it. `queried` is the sequence of names looked up. */
  method MapUniformLocations<L>(lookup: string -> Option<L>)
    returns (r: Result<map<string, L>, string>, ghost queried: seq<string>)
    ensures r.Ok? <==> forall i :: 0 <= i < |UniformNames| ==> lookup(UniformNames[i]).Some?
    ensures r.Ok? ==> r.value.Keys == {"p", "v", "m"}
    ensures r.Ok? ==> forall name :: name in r.value ==> lookup(name) == Some(r.value[name])
    ensures r.Ok? ==> queried == UniformNames
    ensures r.Err? ==>
      exists i :: FirstMissing(lookup, i) && r.error == MissingUniform(UniformNames[i]) && queried == UniformNames[..i + 1]
  {
    var unilocs: map<string, L> := map[];
    queried := [];
    var i := 0;
    while i < |UniformNames|
      invariant 0 <= i <= |UniformNames|
      invariant queried == UniformNames[..i]
      invariant forall j :: 0 <= j < i ==> lookup(UniformNames[j]).Some?
      invariant unilocs.Keys == set j | 0 <= j < i :: UniformNames[j]
      invariant forall name :: name in unilocs ==> lookup(name) == Some(unilocs[name])
    {
      var uniform := UniformNames[i];
      var u := lookup(uniform);
      queried := queried + [uniform];
      if u.Some? {
        unilocs := unilocs[uniform := u.value];
      } else {
        return Err(MissingUniform(uniform)), queried;
      }
      i := i + 1;
    }
    assert UniformNames[0] == "p" && UniformNames[1] == "v" && UniformNames[2] == "m";
    r := Ok(unilocs);
  }
}
