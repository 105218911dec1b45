/** `locationToString` and `locationFromString`: a block location written as
    `world;x;y;z` and read back against the list of loaded worlds. */
module Locations {
  import opened Wrappers
  import opened JavaInt
  import opened JavaString
  import opened Claims

  /** `locationStringDelimiter`. */
  const Delimiter: char := ';'

  /** The four fields `locationToString` writes, in order. */
  function LocationParts(l: Location): seq<string>
  {
    [l.world.name, IntToString(l.x), IntToString(l.y), IntToString(l.z)]
  }

  /** `locationToString(location)`. */
  function LocationToString(l: Location): string
  {
    Join(LocationParts(l), Delimiter)
  }

  /** The exceptions `locationFromString` throws. */
  datatype LocationError =
    | TooFewParts(input: string)
    | WorldNotFound(worldName: string)
      /** `Integer.parseInt`'s NumberFormatException. */
    | NotAnInt(part: string)

  /** The position of the first world, from position i on, whose name equals the given
      one ignoring case; |worlds| when there is none. */
  function FirstWorld(worlds: seq<World>, name: string, i: nat): (k: nat)
    requires i <= |worlds|
    ensures i <= k <= |worlds|
    ensures k < |worlds| ==> EqualsIgnoreCase(worlds[k].name, name)
    ensures forall j :: i <= j < k ==> !EqualsIgnoreCase(worlds[j].name, name)
    decreases |worlds| - i
  {
    if i == |worlds| then |worlds|
    else if EqualsIgnoreCase(worlds[i].name, name) then i
    else FirstWorld(worlds, name, i + 1)
  }

  /** What `locationFromString(string, validWorlds)` returns or throws: fewer than four
      parts, then an unknown world, then the first of x, y and z that is not an `int`. */
  function ParsedLocation(s: string, worlds: seq<World>): Result<Location, LocationError>
  {
    FromParts(s, Split(s, Delimiter), worlds)
  }

  /** The same, on the string's parts. */
  function FromParts(s: string, parts: seq<string>, worlds: seq<World>): Result<Location, LocationError>
  {
    if |parts| < 4 then Failure(TooFewParts(s))
    else
      var k := FirstWorld(worlds, parts[0], 0);
      if k == |worlds| then Failure(WorldNotFound(parts[0]))
      else
        var x, y, z := ParseInt(parts[1]), ParseInt(parts[2]), ParseInt(parts[3]);
        if x.None? then Failure(NotAnInt(parts[1]))
        else if y.None? then Failure(NotAnInt(parts[2]))
        else if z.None? then Failure(NotAnInt(parts[3]))
        else Success(Location(worlds[k], x.value, y.value, z.value))
  }

  /** `locationFromString`, with its search over the worlds. */
  method LocationFromString(s: string, validWorlds: seq<World>) returns (r: Result<Location, LocationError>)
    ensures r == ParsedLocation(s, validWorlds)
  {
    var elements := Split(s, Delimiter);
    if |elements| < 4 {
      return Failure(TooFewParts(s));
    }
    var worldName := elements[0];
    var k := FindWorld(validWorlds, worldName);
    if k == |validWorlds| {
      return Failure(WorldNotFound(worldName));
    }
    var x := ParseInt(elements[1]);
    var y := ParseInt(elements[2]);
    var z := ParseInt(elements[3]);
    if x.None? {
      return Failure(NotAnInt(elements[1]));
    }
    if y.None? {
      return Failure(NotAnInt(elements[2]));
    }
    if z.None? {
      return Failure(NotAnInt(elements[3]));
    }
    return Success(Location(validWorlds[k], x.value, y.value, z.value));
  }

  /** The loop over `validWorlds` that stops at the first case-insensitive name match. */
  method FindWorld(worlds: seq<World>, name: string) returns (k: nat)
    ensures k == FirstWorld(worlds, name, 0)
  {
    k := 0;
    while k < |worlds|
      invariant k <= |worlds|
      invariant FirstWorld(worlds, name, k) == FirstWorld(worlds, name, 0)
    {
      if EqualsIgnoreCase(worlds[k].name, name) {
        return;
      }
      k := k + 1;
    }
  }

  /** Reading back a written location gives the same coordinates in the first loaded
      world whose name matches ignoring case, or the unknown-world error when none does.
      The name must not hold the delimiter. */
  lemma LocationRoundTrip(l: Location, worlds: seq<World>)
    requires Delimiter !in l.world.name
    ensures var k := FirstWorld(worlds, l.world.name, 0);
      ParsedLocation(LocationToString(l), worlds)
        == if k == |worlds| then Failure(WorldNotFound(l.world.name))
           else Success(Location(worlds[k], l.x, l.y, l.z))
  {
    var parts := LocationParts(l);
    forall i | 0 <= i < |parts|
      ensures Delimiter !in parts[i]
    {
      if i == 1 {
        assert parts[1] == IntToString(l.x);
      } else if i == 2 {
        assert parts[2] == IntToString(l.y);
      } else if i == 3 {
        assert parts[3] == IntToString(l.z);
      }
    }
    SplitJoin(parts, Delimiter);
    PartsRoundTrip(LocationToString(l), l, worlds);
  }

  /** Reading back the four written fields. */
  lemma PartsRoundTrip(s: string, l: Location, worlds: seq<World>)
    ensures var k := FirstWorld(worlds, l.world.name, 0);
      FromParts(s, LocationParts(l), worlds)
        == if k == |worlds| then Failure(WorldNotFound(l.world.name))
           else Success(Location(worlds[k], l.x, l.y, l.z))
  {
    ParseIntToString(l.x);
    ParseIntToString(l.y);
    ParseIntToString(l.z);
  }

  /** In particular a location in a loaded world no other loaded world's name matches
      ignoring case comes back as it was. */
  lemma LocationRoundTripExact(l: Location, worlds: seq<World>)
    requires Delimiter !in l.world.name
    requires l.world in worlds
    requires forall j :: 0 <= j < |worlds| && EqualsIgnoreCase(worlds[j].name, l.world.name) ==> worlds[j] == l.world
    ensures ParsedLocation(LocationToString(l), worlds) == Success(l)
  {
    LocationRoundTrip(l, worlds);
    var j :| 0 <= j < |worlds| && worlds[j] == l.world;
    assert FirstWorld(worlds, l.world.name, 0) <= j;
  }
}
