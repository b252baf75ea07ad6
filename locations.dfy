/** `Location` of src/Analyzer/entities/Location.mjs: the location table, a run of
    five-word records whose exits come from `Exit.parse`, and the three getters
    the map generator uses (`group`, `isStart` and `label`). */
module Locations {

  import opened Wrappers
  import opened Constants
  import opened Reading
  import opened Exits
  import opened Tables

  // Code units of the characters `label` looks for and adds.
  const Quote: U16 := 0x27       // '
  const Space: U16 := 0x20
  const CloseParen: U16 := 0x29  // )

  /** "Vault". */
  const Vault: Text := [0x56, 0x61, 0x75, 0x6C, 0x74]

  /** The source's `\\n(req. `: a backslash, the letter n, then "(req. ". */
  const Requires: Text := [0x5C, 0x6E, 0x28, 0x72, 0x65, 0x71, 0x2E, 0x20]

  /** The id of the location the game starts in. */
  const StartId: nat := 0x121A

  /** A location: the byte offset of its record, its name and description, the
      word of its entry handler, and its exits. */
  datatype Location = Location(id: nat, name: Text, description: Text, fn: U16, exits: seq<Exit>)
  {
    /** `get group()`: the region of the map the id falls in. */
    function Group(): int
    {
      if id <= 0x1256 then 5        // foothills and dark cave
      else if id <= 0x1314 then 3   // cavern and passages
      else if id <= 0x1366 then 7   // ruins
      else if id <= 0x137A then 1   // Synacor headquarters
      else if id <= 0x13FC then 6   // beach and tropical cave
      else if id <= 0x14A6 then 2   // vault
      else if id <= 0x14CE then 3   // dead end
      else -1
    }

    /** `get isStart()`. */
    predicate IsStart()
    {
      id == StartId
    }

    /** `get label()`: a vault room's name is followed by the last quoted
        segment of its description and, if there is one before it, that
        segment as a requirement. */
    function Label(): Text
    {
      var parts := Quoted(description);
      if StartsWith(name, Vault) && |parts| > 0 then
        var symbol := parts[|parts| - 1];
        var suffix := if |parts| >= 2 then Requires + parts[|parts| - 2] + [CloseParen] else [];
        name + [Space] + symbol + suffix
      else
        name
    }
  }

  /** `s.startsWith(prefix)`. */
  predicate StartsWith(s: Text, prefix: Text)
  {
    |prefix| <= |s| && s[..|prefix|] == prefix
  }

  predicate QuoteFree(s: Text)
  {
    forall i :: 0 <= i < |s| ==> s[i] != Quote
  }

  /** The index of the first quote at or after `from`, or `|s|` if there is none. */
  function NextQuote(s: Text, from: nat): (k: nat)
    requires from <= |s|
    ensures from <= k <= |s|
    ensures k < |s| ==> s[k] == Quote
    ensures forall j :: from <= j < k ==> s[j] != Quote
    decreases |s| - from
  {
    if from == |s| || s[from] == Quote then from else NextQuote(s, from + 1)
  }

  /** The matches of `/'[^']+'/g` in `s`, left to right: a quote, at least one
      other unit, and the next quote. Where no match starts at a quote, the
      search goes on from the unit after it. */
  function Quoted(s: Text): seq<Text>
    decreases |s|
  {
    if s == [] then []
    else if s[0] != Quote then Quoted(s[1..])
    else
      var close := NextQuote(s, 1);
      if 1 < close < |s| then [s[..close + 1]] + Quoted(s[close + 1..])
      else Quoted(s[1..])
  }

  /** A quote, one or more other units, and a quote. */
  predicate Segment(p: Text)
  {
    |p| >= 3 && p[0] == Quote && p[|p| - 1] == Quote && QuoteFree(p[1..|p| - 1])
  }

  /** Each match is a quoted segment. */
  lemma {:induction false} QuotedShape(s: Text)
    ensures forall k :: 0 <= k < |Quoted(s)| ==> Segment(Quoted(s)[k])
    decreases |s|
  {
    if s != [] {
      if s[0] != Quote {
        QuotedShape(s[1..]);
      } else {
        var close := NextQuote(s, 1);
        if 1 < close < |s| {
          var rest := s[close + 1..];
          QuotedShape(rest);
          var p := s[..close + 1];
          assert p[1..|p| - 1] == s[1..close];
          assert Segment(p);
          var all := Quoted(s);
          assert all == [p] + Quoted(rest);
          forall k | 0 < k < |all|
            ensures Segment(all[k])
          {
            assert all[k] == Quoted(rest)[k - 1];
          }
        } else {
          QuotedShape(s[1..]);
        }
      }
    }
  }

  /** Text without quotes holds no match. */
  lemma {:induction false} QuotedSkipsPlain(x: Text, y: Text)
    requires QuoteFree(x)
    ensures Quoted(x + y) == Quoted(y)
    decreases |x|
  {
    if x == [] {
      assert x + y == y;
    } else {
      assert (x + y)[1..] == x[1..] + y;
      QuotedSkipsPlain(x[1..], y);
    }
  }

  /** A quoted segment is matched whole, and the search goes on after it. */
  lemma QuotedSegment(body: Text, y: Text)
    requires |body| > 0 && QuoteFree(body)
    ensures Quoted([Quote] + body + [Quote] + y) == [[Quote] + body + [Quote]] + Quoted(y)
  {
    var s := [Quote] + body + [Quote] + y;
    var close := NextQuote(s, 1);
    assert s[|body| + 1] == Quote;
    assert forall j :: 1 <= j <= |body| ==> s[j] == body[j - 1];
    assert close == |body| + 1;
    assert s[..close + 1] == [Quote] + body + [Quote];
    assert s[close + 1..] == y;
  }

  /** Outside a vault, or without a quoted segment, the label is the name. */
  lemma LabelIsName(location: Location)
    requires !StartsWith(location.name, Vault) || Quoted(location.description) == []
    ensures location.Label() == location.name
  {
  }

  /** Text without quotes, then a quoted segment: the segment is the first match. */
  lemma QuotedFirst(x: Text, body: Text, y: Text)
    requires QuoteFree(x) && QuoteFree(body) && |body| > 0
    ensures Quoted(x + [Quote] + body + [Quote] + y) == [[Quote] + body + [Quote]] + Quoted(y)
  {
    assert x + [Quote] + body + [Quote] + y == x + ([Quote] + body + [Quote] + y);
    QuotedSkipsPlain(x, [Quote] + body + [Quote] + y);
    QuotedSegment(body, y);
  }

  lemma QuotedNone(z: Text)
    requires QuoteFree(z)
    ensures Quoted(z) == []
  {
    QuotedSkipsPlain(z, []);
    assert z + [] == z;
  }

  /** A vault room whose description quotes one segment is labelled with its
      name and that segment. */
  lemma LabelOneSegment(location: Location, x: Text, a: Text, z: Text)
    requires StartsWith(location.name, Vault)
    requires QuoteFree(x) && QuoteFree(a) && QuoteFree(z) && |a| > 0
    requires location.description == x + [Quote] + a + [Quote] + z
    ensures location.Label() == location.name + [Space] + ([Quote] + a + [Quote])
  {
    QuotedFirst(x, a, z);
    QuotedNone(z);
    assert Quoted(location.description) == [[Quote] + a + [Quote]];
  }

  /** A vault room whose description quotes two segments is labelled with its
      name, the second segment and, as the requirement, the first. */
  lemma LabelTwoSegments(location: Location, x: Text, a: Text, y: Text, b: Text, z: Text)
    requires StartsWith(location.name, Vault)
    requires QuoteFree(x) && QuoteFree(a) && QuoteFree(y) && QuoteFree(b) && QuoteFree(z)
    requires |a| > 0 && |b| > 0
    requires location.description == x + [Quote] + a + [Quote] + y + [Quote] + b + [Quote] + z
    ensures location.Label() == location.name + [Space] + ([Quote] + b + [Quote]) + Requires + ([Quote] + a + [Quote]) + [CloseParen]
  {
    var first := [Quote] + a + [Quote];
    var second := [Quote] + b + [Quote];
    var rest := y + [Quote] + b + [Quote] + z;
    assert location.description == x + [Quote] + a + [Quote] + rest;
    QuotedFirst(x, a, rest);
    QuotedFirst(y, b, z);
    QuotedNone(z);
    assert Quoted(location.description) == [first, second];
  }

  /** Every label begins with the location's name. */
  lemma LabelExtendsName(location: Location)
    ensures StartsWith(location.Label(), location.name)
  {
    var text := location.Label();
    assert text[..|location.name|] == location.name;
  }

  /** The groups are the seven map regions, or -1 past the last one. */
  lemma GroupRange(location: Location)
    ensures location.Group() in {-1, 1, 2, 3, 5, 6, 7}
    ensures location.Group() == -1 <==> location.id > 0x14CE
    ensures location.Group() == 3 <==> 0x1256 < location.id <= 0x1314 || 0x14A6 < location.id <= 0x14CE
  {
  }

  /** The bytes of one location record. */
  const RecordSize: nat := 10

  /** The location whose record starts at `offset`. */
  function LocationAt(data: seq<Byte>, offset: nat): Option<Location>
  {
    match PStringBehind(data, offset)
    case None => None
    case Some(name) =>
      match PStringBehind(data, offset + 2)
      case None => None
      case Some(description) =>
        match WordAt(data, offset + 4)
        case None => None
        case Some(names) =>
          match WordAt(data, offset + 6)
          case None => None
          case Some(targets) =>
            match Exits.Parse(data, names as nat * 2, targets as nat * 2)
            case None => None
            case Some(exits) =>
              match WordAt(data, offset + 8)
              case None => None
              case Some(fn) => Some(Location(offset, name, description, fn, exits))
  }

  /** Record `i` of the table that starts at `fromOffset`. */
  function LocationOf(data: seq<Byte>, fromOffset: nat, i: nat): Option<Location>
  {
    LocationAt(data, fromOffset + RecordSize * i)
  }

  /** The location reader the table loop is given. */
  function LocationReader(data: seq<Byte>): nat -> Option<Location>
  {
    (offset: nat) => LocationAt(data, offset)
  }

  /** `Location.parse(data, fromOffset, toOffset)`. */
  function Parse(data: seq<Byte>, fromOffset: nat, toOffset: nat): Option<seq<Location>>
  {
    Records(LocationReader(data), RecordSize, fromOffset, toOffset)
  }

  /** A successful parse holds one location per visited record, in order:
      location i is the record at `fromOffset + 10i` and has that offset as its
      id. */
  lemma ParsedLocations(data: seq<Byte>, fromOffset: nat, toOffset: nat)
    requires Parse(data, fromOffset, toOffset).Some?
    ensures var locations := Parse(data, fromOffset, toOffset).value;
            |locations| == Count(RecordSize, fromOffset, toOffset) &&
            forall i :: 0 <= i < |locations| ==>
              LocationOf(data, fromOffset, i) == Some(locations[i]) && locations[i].id == fromOffset + RecordSize * i
  {
    RecordsEach(LocationReader(data), RecordSize, fromOffset, toOffset);
    var locations := Parse(data, fromOffset, toOffset).value;
    forall i | 0 <= i < |locations|
      ensures LocationOf(data, fromOffset, i) == Some(locations[i]) && locations[i].id == fromOffset + RecordSize * i
    {
      assert At(LocationReader(data), RecordSize, fromOffset, i) == LocationOf(data, fromOffset, i);
    }
  }

  /** The parse succeeds exactly when every visited record can be read. */
  lemma ParseSucceeds(data: seq<Byte>, fromOffset: nat, toOffset: nat)
    ensures Parse(data, fromOffset, toOffset).Some? <==>
              forall i :: 0 <= i < Count(RecordSize, fromOffset, toOffset) ==> LocationOf(data, fromOffset, i).Some?
  {
    RecordsEach(LocationReader(data), RecordSize, fromOffset, toOffset);
    forall i | 0 <= i < Count(RecordSize, fromOffset, toOffset)
      ensures At(LocationReader(data), RecordSize, fromOffset, i) == LocationOf(data, fromOffset, i)
    {
    }
  }

  /** A location's exits are the parse of the two exit tables its record points
      at. */
  lemma LocationExits(data: seq<Byte>, offset: nat)
    requires LocationAt(data, offset).Some?
    ensures WordAt(data, offset + 4).Some? && WordAt(data, offset + 6).Some?
    ensures Exits.Parse(data, WordAt(data, offset + 4).value as nat * 2, WordAt(data, offset + 6).value as nat * 2)
              == Some(LocationAt(data, offset).value.exits)
  {
  }

  /** Every location of a table that ends by 0x14CE lies in one of the seven
      regions; both tables the analyzer loads do. */
  lemma ParsedGroups(data: seq<Byte>, fromOffset: nat, toOffset: nat)
    requires toOffset <= 0x14CE && Parse(data, fromOffset, toOffset).Some?
    ensures forall i :: 0 <= i < |Parse(data, fromOffset, toOffset).value| ==>
              Parse(data, fromOffset, toOffset).value[i].Group() != -1
  {
    ParsedLocations(data, fromOffset, toOffset);
    forall i | 0 <= i < |Parse(data, fromOffset, toOffset).value|
      ensures Parse(data, fromOffset, toOffset).value[i].Group() != -1
    {
      AtWithin(RecordSize, fromOffset, toOffset, i);
    }
  }

  /** The table the analyzer loads first, at 0x121A, begins with the starting
      location, in the foothills group; no other location of a table is the
      start. */
  lemma StartComesFirst(data: seq<Byte>, toOffset: nat)
    requires Parse(data, StartId, toOffset).Some?
    ensures var locations := Parse(data, StartId, toOffset).value;
            StartId <= toOffset ==> |locations| > 0 && locations[0].IsStart() && locations[0].Group() == 5
    ensures var locations := Parse(data, StartId, toOffset).value;
            forall i :: 0 < i < |locations| ==> !locations[i].IsStart()
  {
    ParsedLocations(data, StartId, toOffset);
  }

  /** A record that cannot be read fails the parse. */
  lemma ParseStops(data: seq<Byte>, at: nat, toOffset: nat)
    requires at <= toOffset && LocationAt(data, at).None?
    ensures Parse(data, at, toOffset).None?
  {
    RecordsStop(LocationReader(data), RecordSize, at, toOffset);
  }

  /** A record that can be read joins the locations found so far. */
  lemma ParseGoesOn(data: seq<Byte>, at: nat, toOffset: nat, found: seq<Location>, location: Location)
    requires at <= toOffset && LocationAt(data, at) == Some(location)
    ensures Prefixed(found, Parse(data, at, toOffset)) == Prefixed(found + [location], Parse(data, at + RecordSize, toOffset))
  {
    RecordsStep(LocationReader(data), RecordSize, at, toOffset, found, location);
  }

  /** The loop of `Location.parse`: one record per iteration while the position
      has not passed `toOffset`. */
  method ParseLocations(data: seq<Byte>, fromOffset: nat, toOffset: nat) returns (locations: Option<seq<Location>>)
    ensures locations == Parse(data, fromOffset, toOffset)
  {
    var reader := new Reader(data);
    var found: seq<Location> := [];
    reader.pos := fromOffset;
    PrefixedNothing(Parse(data, fromOffset, toOffset));
    while reader.pos <= toOffset
      invariant Parse(data, fromOffset, toOffset) == Prefixed(found, Parse(data, reader.pos, toOffset))
      decreases toOffset + 1 - reader.pos
    {
      ghost var at := reader.pos;
      var location := ReadLocation(reader);
      if location.None? {
        ParseStops(data, at, toOffset);
        return None;
      }
      ParseGoesOn(data, at, toOffset, found, location.value);
      found := found + [location.value];
    }
    locations := Some(found);
    assert found + [] == found;
  }

  /** The body of the loop: the record at the position, which moves past it. */
  method ReadLocation(reader: Reader) returns (location: Option<Location>)
    modifies reader
    ensures location == LocationAt(reader.buffer, old(reader.pos))
    ensures location.Some? ==> reader.pos == old(reader.pos) + RecordSize
  {
    var id := reader.pos;
    var pointer := reader.Read();
    if pointer.None? {
      return None;
    }
    var name := reader.ReadPStringAt(pointer.value as nat * 2);
    if name.None? {
      return None;
    }
    pointer := reader.Read();
    if pointer.None? {
      return None;
    }
    var description := reader.ReadPStringAt(pointer.value as nat * 2);
    if description.None? {
      return None;
    }
    var names := reader.Read();
    if names.None? {
      return None;
    }
    var targets := reader.Read();
    if targets.None? {
      return None;
    }
    var exits := ParseExits(reader.buffer, names.value as nat * 2, targets.value as nat * 2);
    if exits.None? {
      return None;
    }
    var fn := reader.Read();
    if fn.None? {
      return None;
    }
    location := Some(Location(id, name.value, description.value, fn.value, exits.value));
  }
}
