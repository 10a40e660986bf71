/**
 Google's Encoded Polyline Algorithm Format: variable-length groups of 5-bit chunks, zig-zag
 signs and running deltas. The decoder is the one for trip geometry, the encoder the one the
 map bundles use; the two differ only in how coordinates are scaled to integers.
 */
module Polyline {
  import opened Optional
  import opened Network

  /** A coordinate pair as scaled integers. */
  datatype Pair = Pair(lng: int, lat: int)

  // ----- Groups of chunks ---------------------------------------------------------------------

  /** The number a character stands for; any character is accepted. */
  function Byte(c: char): int {
    c as int - 63
  }

  /** The low five bits. For a negative number too this is the remainder by 32. */
  function Digit(c: char): nat {
    Byte(c) % 32
  }

  /** A character without the continuation bit ends its group. */
  predicate Ends(c: char) {
    Byte(c) < 32
  }

  /** What reading a group gives: its value and the index after it, or that it is cut off. */
  datatype Reading = CutOff | Got(value: nat, next: nat)

  /** The group that starts at index `i`. */
  function Group(s: string, i: nat): (r: Reading)
    requires i <= |s|
    ensures r.Got? ==> i < r.next <= |s|
    decreases |s| - i
  {
    if i == |s| then CutOff
    else if Ends(s[i]) then Got(Digit(s[i]), i + 1)
    else
      var rest := Group(s, i + 1);
      if rest.CutOff? then CutOff else Got(Digit(s[i]) + 32 * rest.value, rest.next)
  }

  /** Undoes the zig-zag: odd numbers stand for negative ones. */
  function Signed(v: nat): int {
    if v % 2 == 1 then -(v / 2) - 1 else v / 2
  }

  /** The two groups of a pair, as read: the latitude comes first. */
  datatype Raw = Raw(lat: nat, lng: nat)

  /** The pairs of groups from index `i` on. */
  function Raws(s: string, i: nat): Option<seq<Raw>>
    requires i <= |s|
    decreases |s| - i
  {
    if i == |s| then Some([])
    else
      var a := Group(s, i);
      if a.CutOff? then None
      else
        var b := Group(s, a.next);
        if b.CutOff? then None else Prepend(Raw(a.value, b.value), Raws(s, b.next))
  }

  function Prepend(p: Raw, rest: Option<seq<Raw>>): Option<seq<Raw>> {
    if rest.None? then None else Some([p] + rest.value)
  }

  function Moved(p: Pair, d: Raw): Pair {
    Pair(p.lng + Signed(d.lng), p.lat + Signed(d.lat))
  }

  /** The running sums of the deltas. */
  function Walked(from: Pair, raws: seq<Raw>): seq<Pair>
    decreases raws
  {
    if raws == [] then [] else [Moved(from, raws[0])] + Walked(Moved(from, raws[0]), raws[1..])
  }

  const ORIGIN := Pair(0, 0)

  /** The pairs that `s` encodes. */
  function Pairs(s: string): Option<seq<Pair>> {
    if Raws(s, 0).None? then None else Some(Walked(ORIGIN, Raws(s, 0).value))
  }

  // ----- Decoding -----------------------------------------------------------------------------

  /** Reads one group; `scale` is two to the power of the source's shift. */
  method ReadGroup(encoded: string, start: nat) returns (r: Reading)
    requires start <= |encoded|
    ensures r == Group(encoded, start)
  {
    var index, result, scale := start, 0, 1;
    while index < |encoded|
      invariant start <= index <= |encoded| && 0 <= result < scale
      invariant Group(encoded, start) == Continued(result, scale, Group(encoded, index))
    {
      var c := encoded[index];
      var digit := Digit(c);
      ReadStep(encoded, index, result, scale);
      index := index + 1;
      result := result + digit * scale;  // the bits below `scale` hold `result`, so this is the source's "or"
      scale := scale * 32;
      if Ends(c) {
        return Got(result, index);
      }
    }
    r := CutOff;
  }

  /** The low bits read so far, with the rest of the group above them. */
  ghost function Continued(result: nat, scale: nat, rest: Reading): Reading {
    if rest.CutOff? then CutOff else Got(result + scale * rest.value, rest.next)
  }

  /** One more character moves its five bits from the rest of the group to the bits read. */
  lemma ReadStep(s: string, i: nat, result: nat, scale: nat)
    requires i < |s| && result < scale
    ensures var result' := result + Digit(s[i]) * scale;
            && result' < scale * 32
            && Continued(result, scale, Group(s, i)) ==
               if Ends(s[i]) then Got(result', i + 1) else Continued(result', scale * 32, Group(s, i + 1))
  {
    Room(result, scale, Digit(s[i]));
    var rest := Group(s, i + 1);
    if rest.Got? {
      Carry(scale, Digit(s[i]), rest.value);
    }
  }

  lemma Carry(scale: nat, digit: nat, rest: nat)
    ensures scale * (digit + 32 * rest) == digit * scale + scale * 32 * rest
  {
  }

  lemma Room(result: nat, scale: nat, digit: nat)
    requires result < scale && digit < 32
    ensures result + digit * scale < scale * 32
  {
    assert digit * scale <= 31 * scale;
  }

  function Scaled(pairs: seq<Pair>): seq<Point> {
    seq(|pairs|, i requires 0 <= i < |pairs| => Point(pairs[i].lng as real / 100000.0, pairs[i].lat as real / 100000.0))
  }

  /** Decodes a precision-5 polyline; a group that is cut off makes it invalid. */
  method DecodePolyline5(encoded: string) returns (coords: Option<seq<Point>>)
    ensures coords.Some? <==> Pairs(encoded).Some?
    ensures coords.Some? ==> PointsOf(Pairs(encoded).value, coords.value)
    ensures forall pairs :: encoded == Encoded(pairs) ==> coords.Some? && PointsOf(pairs, coords.value)
  {
    coords := ReadPairs(encoded);
    forall pairs | encoded == Encoded(pairs)
      ensures Pairs(encoded) == Some(pairs)
    {
      RoundTrip(pairs);
    }
    if coords.Some? {
      ScaledPoints(Pairs(encoded).value);
    }
  }

  lemma ScaledPoints(pairs: seq<Pair>)
    ensures PointsOf(pairs, Scaled(pairs))
  {
    forall i | 0 <= i < |pairs|
      ensures PointOf(pairs[i], Scaled(pairs)[i])
    {
      assert Scaled(pairs)[i] == Point(pairs[i].lng as real / 100000.0, pairs[i].lat as real / 100000.0);
    }
  }

  /** The loop over the pairs of groups. */
  method ReadPairs(encoded: string) returns (coords: Option<seq<Point>>)
    ensures coords == if Pairs(encoded).None? then None else Some(Scaled(Pairs(encoded).value))
  {
    var index, lat, lng := 0, 0, 0;
    var line: seq<Point> := [];
    ghost var done: seq<Raw> := [];
    AfterNone(Raws(encoded, 0));
    while index < |encoded|
      invariant index <= |encoded| && Raws(encoded, 0) == After(done, Raws(encoded, index))
      invariant line == Scaled(Walked(ORIGIN, done)) && Pair(lng, lat) == EndOf(ORIGIN, done)
    {
      var a := ReadGroup(encoded, index);
      if a.CutOff? {
        return None;
      }
      var b := ReadGroup(encoded, a.next);
      if b.CutOff? {
        return None;
      }
      ghost var d := Raw(a.value, b.value);
      AfterStep(done, d, Raws(encoded, b.next));
      WalkedAppend(ORIGIN, done, d);
      lat, lng, index := lat + Signed(a.value), lng + Signed(b.value), b.next;
      line := line + [Point(lng as real / 100000.0, lat as real / 100000.0)];
      done := done + [d];
    }
    assert done + [] == done;
    coords := Some(line);
  }

  /** The points of the pairs: longitude first, in steps of a hundred-thousandth of a degree. */
  ghost predicate PointsOf(pairs: seq<Pair>, points: seq<Point>) {
    |points| == |pairs| && forall i :: 0 <= i < |pairs| ==> PointOf(pairs[i], points[i])
  }

  ghost predicate PointOf(p: Pair, q: Point) {
    q.x * 100000.0 == p.lng as real && q.y * 100000.0 == p.lat as real
  }

  lemma AfterNone(rest: Option<seq<Raw>>)
    ensures After([], rest) == rest
  {
    if rest.Some? {
      assert [] + rest.value == rest.value;
    }
  }

  ghost function After(done: seq<Raw>, rest: Option<seq<Raw>>): Option<seq<Raw>> {
    if rest.None? then None else Some(done + rest.value)
  }

  lemma AfterStep(done: seq<Raw>, p: Raw, rest: Option<seq<Raw>>)
    ensures After(done, Prepend(p, rest)) == After(done + [p], rest)
  {
    if rest.Some? {
      assert done + ([p] + rest.value) == done + [p] + rest.value;
    }
  }

  /** Where the deltas lead. */
  ghost function EndOf(from: Pair, raws: seq<Raw>): Pair
    decreases raws
  {
    if raws == [] then from else EndOf(Moved(from, raws[0]), raws[1..])
  }

  lemma {:induction false} WalkedAppend(from: Pair, raws: seq<Raw>, d: Raw)
    ensures Walked(from, raws + [d]) == Walked(from, raws) + [Moved(EndOf(from, raws), d)]
    ensures EndOf(from, raws + [d]) == Moved(EndOf(from, raws), d)
    decreases raws
  {
    if raws != [] {
      assert (raws + [d])[1..] == raws[1..] + [d];
      WalkedAppend(Moved(from, raws[0]), raws[1..], d);
    }
  }

  // ----- Encoding -----------------------------------------------------------------------------

  function ZigZag(d: int): nat {
    if d < 0 then -2 * d - 1 else 2 * d
  }

  /** The group for a number: five bits a character, low bits first. */
  function EncodeNat(v: nat): string {
    if v >= 32 then [(32 + v % 32 + 63) as char] + EncodeNat(v / 32) else [(v + 63) as char]
  }

  method EncodeDelta(delta: int) returns (s: string)
    ensures s == EncodeNat(ZigZag(delta))
  {
    var value := ZigZag(delta);
    s := [];
    while value >= 32
      invariant value >= 0 && s + EncodeNat(value) == EncodeNat(ZigZag(delta))
    {
      s := s + [(32 + value % 32 + 63) as char];
      value := value / 32;
    }
    s := s + [(value + 63) as char];
  }

  /** The deltas of a list of pairs, zig-zagged. */
  function Deltas(from: Pair, pairs: seq<Pair>): seq<Raw>
    decreases pairs
  {
    if pairs == [] then []
    else [Raw(ZigZag(pairs[0].lat - from.lat), ZigZag(pairs[0].lng - from.lng))] + Deltas(pairs[0], pairs[1..])
  }

  function EncodeRaw(d: Raw): string {
    EncodeNat(d.lat) + EncodeNat(d.lng)
  }

  function EncodeRaws(raws: seq<Raw>): string {
    if raws == [] then "" else EncodeRaw(raws[0]) + EncodeRaws(raws[1..])
  }

  /** The published encoding of a list of pairs. */
  function Encoded(pairs: seq<Pair>): string {
    EncodeRaws(Deltas(ORIGIN, pairs))
  }

  /** The encoder's loop over the coordinates. */
  method EncodePolyline(pairs: seq<Pair>) returns (s: string)
    ensures s == Encoded(pairs)
  {
    s := "";
    var lat, lng := 0, 0;
    assert pairs[0..] == pairs && "" + Encoded(pairs) == Encoded(pairs);
    for i := 0 to |pairs|
      invariant s + EncodeRaws(Deltas(Pair(lng, lat), pairs[i..])) == Encoded(pairs)
    {
      var p := pairs[i];
      EncodeStep(s, Pair(lng, lat), pairs, i);
      var a := EncodeDelta(p.lat - lat);
      var b := EncodeDelta(p.lng - lng);
      s := s + (a + b);
      lat, lng := p.lat, p.lng;
    }
    assert s + "" == s;
  }

  lemma EncodeStep(s: string, from: Pair, pairs: seq<Pair>, i: nat)
    requires i < |pairs|
    ensures s + EncodeRaws(Deltas(from, pairs[i..])) ==
            s + (EncodeNat(ZigZag(pairs[i].lat - from.lat)) + EncodeNat(ZigZag(pairs[i].lng - from.lng)))
            + EncodeRaws(Deltas(pairs[i], pairs[i + 1..]))
  {
    assert pairs[i..][1..] == pairs[i + 1..];
    var all := Deltas(from, pairs[i..]);
    assert all[1..] == Deltas(pairs[i], pairs[i + 1..]);
    var a, b := EncodeRaw(all[0]), EncodeRaws(all[1..]);
    assert s + (a + b) == s + a + b;
  }

  lemma SignedUndoesZigZag(d: int)
    ensures Signed(ZigZag(d)) == d
  {
  }

  /** `s` holds the text `t` at index `i`. */
  ghost predicate Holds(s: string, i: nat, t: string) {
    i + |t| <= |s| && s[i..i + |t|] == t
  }

  lemma HoldsSplit(s: string, i: nat, t: string, u: string)
    requires Holds(s, i, t + u)
    ensures Holds(s, i, t) && Holds(s, i + |t|, u)
  {
    assert s[i..i + |t|] == (t + u)[..|t|] == t;
    assert s[i + |t|..i + |t| + |u|] == (t + u)[|t|..] == u;
  }

  lemma {:induction false} GroupReadsNat(s: string, i: nat, v: nat)
    requires Holds(s, i, EncodeNat(v))
    ensures Group(s, i) == Got(v, i + |EncodeNat(v)|)
    decreases v
  {
    assert s[i] == EncodeNat(v)[0];
    if v >= 32 {
      HoldsSplit(s, i, [(32 + v % 32 + 63) as char], EncodeNat(v / 32));
      GroupReadsNat(s, i + 1, v / 32);
      assert Digit(s[i]) == v % 32;
    }
  }

  lemma TwoGroups(s: string, i: nat, d: Raw)
    requires Holds(s, i, EncodeRaw(d))
    ensures Group(s, i) == Got(d.lat, i + |EncodeNat(d.lat)|)
    ensures Group(s, i + |EncodeNat(d.lat)|) == Got(d.lng, i + |EncodeRaw(d)|)
  {
    HoldsSplit(s, i, EncodeNat(d.lat), EncodeNat(d.lng));
    GroupReadsNat(s, i, d.lat);
    GroupReadsNat(s, i + |EncodeNat(d.lat)|, d.lng);
  }

  lemma RawReadBack(s: string, i: nat, d: Raw, rest: seq<Raw>)
    requires Holds(s, i, EncodeRaw(d)) && Raws(s, i + |EncodeRaw(d)|) == Some(rest)
    ensures Raws(s, i) == Some([d] + rest)
  {
    TwoGroups(s, i, d);
    RawsStep(s, i, Group(s, i), Group(s, i + |EncodeNat(d.lat)|));
  }

  lemma RawsStep(s: string, i: nat, a: Reading, b: Reading)
    requires i < |s| && a == Group(s, i) && a.Got? && b == Group(s, a.next) && b.Got?
    ensures Raws(s, i) == Prepend(Raw(a.value, b.value), Raws(s, b.next))
  {
  }

  lemma {:induction false} RawsReadBack(s: string, i: nat, raws: seq<Raw>)
    requires Holds(s, i, EncodeRaws(raws)) && |s| == i + |EncodeRaws(raws)|
    ensures Raws(s, i) == Some(raws)
    decreases |raws|
  {
    if raws != [] {
      var head, tail := EncodeRaw(raws[0]), EncodeRaws(raws[1..]);
      HoldsSplit(s, i, head, tail);
      RawsReadBack(s, i + |head|, raws[1..]);
      RawReadBack(s, i, raws[0], raws[1..]);
      assert [raws[0]] + raws[1..] == raws;
    }
  }

  lemma {:induction false} WalkedUndoesDeltas(from: Pair, pairs: seq<Pair>)
    ensures Walked(from, Deltas(from, pairs)) == pairs
    decreases pairs
  {
    if pairs != [] {
      SignedUndoesZigZag(pairs[0].lat - from.lat);
      SignedUndoesZigZag(pairs[0].lng - from.lng);
      WalkedUndoesDeltas(pairs[0], pairs[1..]);
    }
  }

  /** Decoding the encoding of any list of integer pairs gives the list back. */
  lemma RoundTrip(pairs: seq<Pair>)
    ensures Pairs(Encoded(pairs)) == Some(pairs)
  {
    RawsReadBack(Encoded(pairs), 0, Deltas(ORIGIN, pairs));
    WalkedUndoesDeltas(ORIGIN, pairs);
  }

  /** The example of the published format: latitude 38.5, longitude -120.2. */
  lemma PublishedExample()
    ensures Encoded([Pair(-12020000, 3850000)]) == "_p~iF~ps|U"
  {
    var raw := Raw(7700000, 24039999);
    assert Deltas(ORIGIN, [Pair(-12020000, 3850000)]) == [raw];
    assert EncodeRaws([raw]) == EncodeRaw(raw) + "";
    ExampleLatitude();
    ExampleLongitude();
  }

  lemma ExampleLatitude()
    ensures EncodeNat(7700000) == "_p~iF"
  {
    assert 7700000 / 32 == 240625 && 7700000 % 32 == 0;
    assert 240625 / 32 == 7519 && 240625 % 32 == 17;
    assert 7519 / 32 == 234 && 7519 % 32 == 31;
    assert 234 / 32 == 7 && 234 % 32 == 10;
    assert EncodeNat(7) == "F";
    assert EncodeNat(234) == "iF";
    assert EncodeNat(7519) == "~iF";
    assert EncodeNat(240625) == "p~iF";
  }

  lemma ExampleLongitude()
    ensures EncodeNat(24039999) == "~ps|U"
  {
    assert 24039999 / 32 == 751249 && 24039999 % 32 == 31;
    assert 751249 / 32 == 23476 && 751249 % 32 == 17;
    assert 23476 / 32 == 733 && 23476 % 32 == 20;
    assert 733 / 32 == 22 && 733 % 32 == 29;
    assert EncodeNat(22) == "U";
    assert EncodeNat(733) == "|U";
    assert EncodeNat(23476) == "s|U";
    assert EncodeNat(751249) == "ps|U";
  }

  /** So different lists have different encodings. */
  lemma EncodingIsInjective(pairs: seq<Pair>, pairs': seq<Pair>)
    requires Encoded(pairs) == Encoded(pairs')
    ensures pairs == pairs'
  {
    RoundTrip(pairs);
    RoundTrip(pairs');
  }

  // ----- Which strings decode -----------------------------------------------------------------

  /** The number of complete groups from index `i` on. */
  function Groups(s: string, i: nat): nat
    requires i <= |s|
    decreases |s| - i
  {
    if i == |s| then 0 else Groups(s, i + 1) + if Ends(s[i]) then 1 else 0
  }

  /** Nothing from index `i` on is left over after the last complete group. */
  predicate Complete(s: string, i: nat) {
    i == |s| || (s != "" && Ends(s[|s| - 1]))
  }

  lemma {:induction false} GroupTakesOne(s: string, i: nat)
    requires i <= |s|
    ensures Group(s, i).CutOff? <==> Groups(s, i) == 0
    ensures Group(s, i).Got? ==> Groups(s, Group(s, i).next) == Groups(s, i) - 1 && Ends(s[Group(s, i).next - 1])
    decreases |s| - i
  {
    if i < |s| && !Ends(s[i]) {
      GroupTakesOne(s, i + 1);
    }
  }

  lemma {:induction false} NoGroupLeft(s: string, i: nat)
    requires i < |s| && Groups(s, i) == 0
    ensures !Ends(s[|s| - 1])
    decreases |s| - i
  {
    if i + 1 < |s| {
      NoGroupLeft(s, i + 1);
    }
  }

  lemma {:induction false} RawsIffEvenGroups(s: string, i: nat)
    requires i <= |s|
    ensures Raws(s, i).Some? <==> Complete(s, i) && Groups(s, i) % 2 == 0
    decreases |s| - i
  {
    if i < |s| {
      GroupTakesOne(s, i);
      var a := Group(s, i);
      if a.CutOff? {
        NoGroupLeft(s, i);
      } else {
        GroupTakesOne(s, a.next);
        var b := Group(s, a.next);
        if b.Got? {
          RawsIffEvenGroups(s, b.next);
        } else if a.next < |s| {
          NoGroupLeft(s, a.next);
        }
      }
    }
  }

  /** A string decodes exactly when it consists of an even number of complete groups. */
  lemma DecodesIffEvenGroups(s: string)
    ensures Pairs(s).Some? <==> Complete(s, 0) && Groups(s, 0) % 2 == 0
  {
    RawsIffEvenGroups(s, 0);
  }
}
