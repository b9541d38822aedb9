/** Value types shared by the town model: coordinates, locations, residents,
    nations, plot groups, the wrappers that stand for the Java exceptions, and
    the java.util.List operations the town's lists rely on. */
module TownyObjects {

  datatype Option<T> = None | Some(value: T)

  /** The exceptions thrown by the modelled code, with their language keys. */
  datatype Error =
    | AlreadyRegistered(key: string)
    | NotRegistered(key: string)
    | EmptyTown
    | TownyError(key: string)
    | IndexOutOfBounds
    | NullPointer

  datatype Result<T> = Ok(value: T) | Err(error: Error)

  datatype Outcome = Pass | Fail(error: Error)

  const MinInt32: int := -0x8000_0000
  const MaxInt32: int := 0x7FFF_FFFF

  /** The values of a Java int. */
  predicate IsInt32(x: int)
  {
    MinInt32 <= x <= MaxInt32
  }

  /** Java int arithmetic: the exact result reduced to 32 bits, two's
      complement, so a sum past MaxInt32 wraps to a negative value. */
  function Wrap32(x: int): (r: int)
    ensures IsInt32(r)
    ensures IsInt32(x) ==> r == x
    ensures IsInt32(x - 0x1_0000_0000) ==> r == x - 0x1_0000_0000
    ensures IsInt32(x + 0x1_0000_0000) ==> r == x + 0x1_0000_0000
  {
    (x - MinInt32) % 0x1_0000_0000 + MinInt32
  }

  /** Side of a town block, in world blocks (default of the town_block_size setting). */
  const CellSize: int := 16

  /** A town-block cell, without its world (Coord). */
  datatype Coord = Coord(x: int, z: int)

  /** A town-block cell in a named world (WorldCoord): the key of a town's claim map. */
  datatype WorldCoord = WorldCoord(worldName: string, x: int, z: int) {
    function Cell(): Coord { Coord(x, z) }
  }

  /** A block position in a named world (Bukkit Location, at block precision). */
  datatype Location = Location(worldName: string, x: int, y: int, z: int)

  /** Coord.parseCoord: the cell holding a block position, by floor division. */
  function ParseCoord(loc: Location): (c: Coord)
    ensures CellSize * c.x <= loc.x < CellSize * (c.x + 1)
    ensures CellSize * c.z <= loc.z < CellSize * (c.z + 1)
  {
    Coord(loc.x / CellSize, loc.z / CellSize)
  }

  /** True when the location's cell has the x and z of the given cell; the
      world is not compared (removeOutpostSpawn, removeJailSpawn, setSpawn). */
  predicate AtCoord(loc: Location, c: Coord)
  {
    ParseCoord(loc).x == c.x && ParseCoord(loc).z == c.z
  }

  /** Plot types in declaration order; getPlotTypePrice switches on the ordinals
      1 (commercial) and 3 (embassy). */
  datatype TownBlockType =
    | Residential | Commercial | Arena | Embassy | Wilds | Spleef | Inn | Jail | Farm | Bank

  /** A resident: identity by name, with the town ranks it holds. */
  datatype Resident = Resident(name: string, townRanks: set<string>) {
    predicate HasTownRank(rank: string) { rank in townRanks }
  }

  /** A nation, with the names of its allies. */
  datatype Nation = Nation(name: string, allies: set<string>) {
    predicate HasAlly(other: Nation) { other.name in allies }
  }

  /** A plot group, keyed in the town by its name. */
  datatype PlotGroup = PlotGroup(id: nat, name: string)

  ghost predicate NoDup<T>(s: seq<T>)
  {
    forall i, j :: 0 <= i < j < |s| ==> s[i] != s[j]
  }

  /** x occurs strictly before y in s. */
  ghost predicate Before<T>(s: seq<T>, x: T, y: T)
  {
    exists a, b :: 0 <= a < b < |s| && s[a] == x && s[b] == y
  }

  lemma NoDupAppend<T>(s: seq<T>, x: T)
    requires NoDup(s) && x !in s
    ensures NoDup(s + [x])
  {
    forall i, j | 0 <= i < j < |s + [x]| ensures (s + [x])[i] != (s + [x])[j] {
      if j == |s| {
        assert (s + [x])[i] == s[i];
      }
    }
  }

  /** java.util.List.remove(Object): drops the first element equal to x, if any. */
  function Discard<T(==)>(s: seq<T>, x: T): (r: seq<T>)
    ensures x !in s ==> r == s
    ensures multiset(r) == multiset(s) - multiset{x}
  {
    if s == [] then []
    else if s[0] == x then
      assert s == [s[0]] + s[1..];
      s[1..]
    else
      assert s == [s[0]] + s[1..];
      [s[0]] + Discard(s[1..], x)
  }

  lemma NoDupTail<T>(s: seq<T>)
    requires NoDup(s) && s != []
    ensures NoDup(s[1..]) && s[0] !in s[1..]
  {
    forall i, j | 0 <= i < j < |s[1..]| ensures s[1..][i] != s[1..][j] {
      assert s[1..][i] == s[i + 1] && s[1..][j] == s[j + 1];
    }
    forall k | 0 <= k < |s[1..]| ensures s[1..][k] != s[0] {
      assert s[1..][k] == s[k + 1];
    }
  }

  lemma NoDupCons<T>(x: T, s: seq<T>)
    requires NoDup(s) && x !in s
    ensures NoDup([x] + s)
  {
    forall i, j | 0 <= i < j < |[x] + s| ensures ([x] + s)[i] != ([x] + s)[j] {
      if i == 0 {
        assert ([x] + s)[j] == s[j - 1];
      } else {
        assert ([x] + s)[i] == s[i - 1] && ([x] + s)[j] == s[j - 1];
      }
    }
  }

  /** Removing from a duplicate-free list leaves it duplicate-free and without x. */
  lemma {:induction false} DiscardNoDup<T>(s: seq<T>, x: T)
    requires NoDup(s)
    ensures NoDup(Discard(s, x)) && x !in Discard(s, x)
  {
    if s != [] {
      NoDupTail(s);
      if s[0] != x {
        DiscardNoDup(s[1..], x);
        var rest := Discard(s[1..], x);
        assert multiset(s[1..])[s[0]] == 0;
        assert multiset(rest)[s[0]] == 0;
        NoDupCons(s[0], rest);
      }
    }
  }

  /** In a duplicate-free list, removing x keeps exactly the other elements. */
  lemma DiscardMembers<T>(s: seq<T>, x: T, y: T)
    requires NoDup(s)
    ensures y in Discard(s, x) <==> y in s && y != x
  {
    var r := Discard(s, x);
    DiscardNoDup(s, x);
    if y != x {
      assert multiset(r)[y] == multiset(s)[y];
    }
  }

  /** The locations not in the given cell, in order. */
  function WithoutCell(spawns: seq<Location>, c: Coord): (r: seq<Location>)
    ensures forall l :: l in r <==> l in spawns && !AtCoord(l, c)
  {
    if spawns == [] then []
    else
      var last := spawns[|spawns| - 1];
      assert spawns == spawns[..|spawns| - 1] + [last];
      WithoutCell(spawns[..|spawns| - 1], c) + (if AtCoord(last, c) then [] else [last])
  }

  /** One step of a removal loop over a copy of the spawn list: the list so
      far is the filtered prefix followed by the unvisited suffix. */
  lemma WithoutCellStep(copy: seq<Location>, i: nat, c: Coord)
    requires i < |copy|
    ensures var current := WithoutCell(copy[..i], c) + copy[i..];
            var next := WithoutCell(copy[..i + 1], c) + copy[i + 1..];
            if AtCoord(copy[i], c) then Discard(current, copy[i]) == next else current == next
  {
    var front := WithoutCell(copy[..i], c);
    assert copy[..i + 1] == copy[..i] + [copy[i]];
    assert copy[..i + 1][..i] == copy[..i];
    assert copy[i..] == [copy[i]] + copy[i + 1..];
    if AtCoord(copy[i], c) {
      assert WithoutCell(copy[..i + 1], c) == front;
      DiscardSkipsPrefix(front, copy[i..], copy[i]);
    } else {
      assert WithoutCell(copy[..i + 1], c) == front + [copy[i]];
    }
  }

  /** Removing an element absent from the front part drops the first element
      of the back part. */
  lemma {:induction false} DiscardSkipsPrefix<T>(a: seq<T>, b: seq<T>, x: T)
    requires x !in a && b != [] && b[0] == x
    ensures Discard(a + b, x) == a + b[1..]
  {
    if a == [] {
      assert a + b == b;
    } else {
      assert (a + b)[0] == a[0];
      assert (a + b)[1..] == a[1..] + b;
      DiscardSkipsPrefix(a[1..], b, x);
      assert a == [a[0]] + a[1..];
    }
  }
}
