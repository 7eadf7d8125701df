/**
 * The "lon,lat" coordinate strings of a ride request
 * (backend/server.js:191-192, 209-210): JavaScript's `String.prototype.split`
 * on one separator character, and the destructuring of its first two pieces.
 */
module Coordinates {
  import opened Wrappers

  /** `s.split(sep)`: the maximal separator-free pieces, in order; never empty. */
  function Split(s: string, sep: char): (parts: seq<string>)
    ensures |parts| >= 1
    ensures forall i :: 0 <= i < |parts| ==> sep !in parts[i]
  {
    if s == [] then [[]]
    else
      var rest := Split(s[1..], sep);
      if s[0] == sep then [[]] + rest
      else [[s[0]] + rest[0]] + rest[1..]
  }

  /** `parts.join(sep)`, the inverse of Split. */
  function Join(parts: seq<string>, sep: char): string
    requires |parts| >= 1
  {
    if |parts| == 1 then parts[0] else parts[0] + [sep] + Join(parts[1..], sep)
  }

  /** Number of occurrences of `c` in `s`. */
  function Occurrences(s: string, c: char): nat {
    if s == [] then 0 else (if s[0] == c then 1 else 0) + Occurrences(s[1..], c)
  }

  lemma {:induction false} OccurrencesZero(s: string, c: char)
    ensures Occurrences(s, c) == 0 <==> c !in s
  {
    if s != [] {
      OccurrencesZero(s[1..], c);
      assert s == [s[0]] + s[1..];
    }
  }

  /** Joining the pieces back with the separator gives the original string. */
  lemma {:induction false} JoinSplit(s: string, sep: char)
    ensures Join(Split(s, sep), sep) == s
  {
    if s != [] {
      var rest := Split(s[1..], sep);
      JoinSplit(s[1..], sep);
      if s[0] != sep && |rest| > 1 {
        assert Join(rest, sep) == rest[0] + [sep] + Join(rest[1..], sep);
        assert [s[0]] + rest[0] + [sep] + Join(rest[1..], sep) == [s[0]] + Join(rest, sep);
      }
    }
  }

  /** There is one more piece than there are separators. */
  lemma {:induction false} SplitCount(s: string, sep: char)
    ensures |Split(s, sep)| == Occurrences(s, sep) + 1
  {
    if s != [] {
      SplitCount(s[1..], sep);
    }
  }

  /** A separator-free string is its own single piece. */
  lemma {:induction false} SplitPlain(p: string, sep: char)
    requires sep !in p
    ensures Split(p, sep) == [p]
  {
    if p != [] {
      SplitPlain(p[1..], sep);
      assert [p[0]] + p[1..] == p;
    }
  }

  /** A separator-free first piece comes off in front of the rest's pieces. */
  lemma {:induction false} SplitCons(p: string, sep: char, t: string)
    requires sep !in p
    ensures Split(p + [sep] + t, sep) == [p] + Split(t, sep)
  {
    if p == [] {
      assert p + [sep] + t == [sep] + t;
    } else {
      var s := p + [sep] + t;
      SplitCons(p[1..], sep, t);
      assert s[0] == p[0] && s[1..] == p[1..] + [sep] + t;
      assert [p[0]] + p[1..] == p;
    }
  }

  /** Splitting a join of separator-free pieces gives the pieces back. */
  lemma {:induction false} SplitJoin(parts: seq<string>, sep: char)
    requires |parts| >= 1
    requires forall i :: 0 <= i < |parts| ==> sep !in parts[i]
    ensures Split(Join(parts, sep), sep) == parts
  {
    if |parts| == 1 {
      SplitPlain(parts[0], sep);
    } else {
      SplitJoin(parts[1..], sep);
      SplitCons(parts[0], sep, Join(parts[1..], sep));
      assert parts == [parts[0]] + parts[1..];
    }
  }

  /** A coordinate as the handler destructures it: `const [lon, lat] = s.split(',')`. */
  datatype Coord = Coord(lon: string, lat: Option<string>)

  /**
   * `lon` is the text before the first comma (all of it when there is no
   * comma); `lat` is the text between the first and the second comma, or the
   * rest; it is undefined exactly when there is no comma.
   */
  function ParseCoord(text: string): (c: Coord)
    ensures ',' !in c.lon
    ensures c.lat.None? <==> ',' !in text
    ensures c.lat.None? ==> c.lon == text
    ensures c.lat.Some? ==>
      && ',' !in c.lat.value
      && var head := c.lon + [','] + c.lat.value;
      && head <= text
      && (|head| == |text| || text[|head|] == ',')
  {
    var parts := Split(text, ',');
    JoinSplit(text, ',');
    SplitCount(text, ',');
    OccurrencesZero(text, ',');
    if |parts| == 1 then
      Coord(parts[0], None)
    else
      assert text == parts[0] + [','] + Join(parts[1..], ',');
      assert |parts[1..]| == 1 || Join(parts[1..], ',') == parts[1] + [','] + Join(parts[2..], ',');
      Coord(parts[0], Some(parts[1]))
  }

  /** The source's sample origin "-46.633,-23.550" splits into its two numbers. */
  lemma ParseSampleOrigin()
    ensures ParseCoord("-46.633,-23.550") == Coord("-46.633", Some("-23.550"))
  {
    var text, lon, lat := "-46.633,-23.550", "-46.633", "-23.550";
    assert text == lon + [','] + lat;
    assert ',' !in lon && ',' !in lat;
    SplitCons(lon, ',', lat);
    SplitPlain(lat, ',');
    assert Split(text, ',') == [lon, lat];
  }
}
