/**
 * The star pattern generator: `count` random points in a `maxWidth` by
 * `maxHeight` canvas, serialised as a CSS `box-shadow` value list
 * (CSS Backgrounds and Borders Module Level 3, section 7.1), one
 * `<x>px <y>px white` shadow per star, separated by `", "`.
 *
 * `Math.random()` is replaced by an injected sequence of draws: iteration `i`
 * consumes `draws[2 * i]` for `x` and then `draws[2 * i + 1]` for `y`, the
 * order in which the generator calls it.
 */
module StarPattern {
  import opened Text

  /** One point of the pattern, in canvas pixels. */
  datatype Star = Star(x: int, y: int)

  /** The separator `Array.prototype.join` is given. */
  const Separator: string := ", "

  /** What `Math.random()` returns: a number in [0, 1). */
  predicate IsDraw(r: real) {
    0.0 <= r < 1.0
  }

  predicate ValidDraws(draws: seq<real>) {
    forall i :: 0 <= i < |draws| ==> IsDraw(draws[i])
  }

  predicate InCanvas(s: Star, width: int, height: int) {
    0 <= s.x < width && 0 <= s.y < height
  }

  /** `Math.floor(r * max)`: a draw scaled to the canvas and truncated. */
  function Coordinate(r: real, max: int): (c: int)
    ensures IsDraw(r) && max > 0 ==> 0 <= c < max
  {
    var v := r * max as real;
    assert IsDraw(r) && max > 0 ==> 0.0 <= v < max as real by {
      if IsDraw(r) && max > 0 {
        assert r * max as real < 1.0 * max as real;
      }
    }
    v.Floor
  }

  /** How often `for (let i = 0; i < count; i++)` runs its body. */
  function Iterations(count: int): nat {
    if count > 0 then count else 0
  }

  /** The star drawn by iteration `i` of the loop. */
  function StarAt(draws: seq<real>, i: nat, maxWidth: int, maxHeight: int): Star
    requires 2 * i + 1 < |draws|
  {
    Star(Coordinate(draws[2 * i], maxWidth), Coordinate(draws[2 * i + 1], maxHeight))
  }

  /** The stars the loop draws, in loop order. */
  function Pattern(count: int, maxWidth: int, maxHeight: int, draws: seq<real>): (p: seq<Star>)
    requires 2 * count <= |draws|
    ensures |p| == Iterations(count)
    ensures ValidDraws(draws) && maxWidth > 0 && maxHeight > 0 ==>
              forall i :: 0 <= i < |p| ==> InCanvas(p[i], maxWidth, maxHeight)
  {
    seq(Iterations(count), i requires 0 <= i < Iterations(count) => StarAt(draws, i, maxWidth, maxHeight))
  }

  /** The template literal `${x}px ${y}px white`. */
  function Entry(s: Star): (e: string)
    ensures ',' !in e
  {
    NumeralHasNoSeparator(s.x);
    NumeralHasNoSeparator(s.y);
    IntToString(s.x) + "px " + IntToString(s.y) + "px white"
  }

  function Entries(p: seq<Star>): seq<string> {
    seq(|p|, i requires 0 <= i < |p| => Entry(p[i]))
  }

  /** The `box-shadow` value the generator returns for a pattern. */
  function Serialise(p: seq<Star>): (s: string)
    ensures s == "" <==> p == []
  {
    Join(Entries(p), Separator)
  }

  // Reading a box-shadow list back, to state what the serialiser keeps.

  function StripPx(t: string): Option<string> {
    if |t| >= 2 && t[|t| - 2..] == "px" then Some(t[..|t| - 2]) else None
  }

  function ParseLength(t: string): Option<int> {
    match StripPx(t)
    case None => None
    case Some(digits) => ParseInt(digits)
  }

  function ParseEntry(e: string): Option<Star> {
    var parts := Split(e, " ");
    if |parts| == 3 && parts[2] == "white" then
      match (ParseLength(parts[0]), ParseLength(parts[1]))
      case (Some(x), Some(y)) => Some(Star(x, y))
      case _ => None
    else None
  }

  function ParseEntries(es: seq<string>): Option<seq<Star>>
    decreases |es|
  {
    if es == [] then Some([])
    else match (ParseEntry(es[0]), ParseEntries(es[1..]))
      case (Some(s), Some(rest)) => Some([s] + rest)
      case _ => None
  }

  function Decode(shadow: string): Option<seq<Star>> {
    if shadow == "" then Some([]) else ParseEntries(Split(shadow, Separator))
  }

  /** A numeral carries neither a space nor a comma. */
  lemma NumeralHasNoSeparator(n: int)
    ensures ' ' !in IntToString(n) && ',' !in IntToString(n)
  {
  }

  lemma LengthRoundTrip(n: int)
    ensures ParseLength(IntToString(n) + "px") == Some(n)
  {
    var t := IntToString(n) + "px";
    assert t[|t| - 2..] == "px";
    assert t[..|t| - 2] == IntToString(n);
    ParseIntToString(n);
  }

  /** Each shadow entry reads back as the star it was made from. */
  lemma EntryRoundTrip(s: Star)
    ensures ParseEntry(Entry(s)) == Some(s)
    ensures ',' !in Entry(s) && |Entry(s)| > 0
  {
    var words := [IntToString(s.x) + "px", IntToString(s.y) + "px", "white"];
    NumeralHasNoSeparator(s.x);
    NumeralHasNoSeparator(s.y);
    forall i | 0 <= i < |words| ensures ' ' !in words[i] {
    }
    EntrySpelled(s);
    JoinThree(words[0], words[1], words[2], " ");
    SplitJoin(words, " ");
    LengthRoundTrip(s.x);
    LengthRoundTrip(s.y);
  }

  lemma EntrySpelled(s: Star)
    ensures Entry(s) == (IntToString(s.x) + "px") + " " + (IntToString(s.y) + "px") + " " + "white"
  {
    assert "px" + " " == "px ";
    assert "px" + " " + "white" == "px white";
  }

  lemma {:induction false} ParseEntriesOf(p: seq<Star>)
    ensures ParseEntries(Entries(p)) == Some(p)
    decreases |p|
  {
    if p == [] {
      assert Entries(p) == [];
    } else {
      EntriesTail(p);
      ParseEntriesOf(p[1..]);
      EntryRoundTrip(p[0]);
      ParseEntriesCons(Entries(p), p[0], p[1..]);
      assert [p[0]] + p[1..] == p;
    }
  }

  lemma EntriesTail(p: seq<Star>)
    requires p != []
    ensures Entries(p)[0] == Entry(p[0]) && Entries(p)[1..] == Entries(p[1..])
  {
    var es, tail := Entries(p), Entries(p[1..]);
    forall i | 0 <= i < |tail| ensures es[1..][i] == tail[i] {
      EntriesShift(p, i);
    }
    SameElements(es[1..], tail);
  }

  lemma ParseEntriesCons(es: seq<string>, s: Star, rest: seq<Star>)
    requires es != [] && ParseEntry(es[0]) == Some(s) && ParseEntries(es[1..]) == Some(rest)
    ensures ParseEntries(es) == Some([s] + rest)
  {
  }

  /** Splitting a non-empty box-shadow on ", " gives one piece per star, in order. */
  lemma SerialisePieces(p: seq<Star>)
    requires |p| > 0
    ensures Split(Serialise(p), Separator) == Entries(p)
  {
    forall i | 0 <= i < |p| ensures ',' !in Entries(p)[i] {
      EntryRoundTrip(p[i]);
    }
    SplitJoin(Entries(p), Separator);
  }

  /** The empty list and only the empty list serialises to the empty string. */
  lemma SerialiseEmpty(p: seq<Star>)
    ensures Serialise(p) == "" <==> p == []
  {
  }

  /** Decoding undoes serialising: no star is lost, reordered or altered. */
  lemma DecodeSerialise(p: seq<Star>)
    ensures Decode(Serialise(p)) == Some(p)
  {
    SerialiseEmpty(p);
    if p != [] {
      SerialisePieces(p);
      ParseEntriesOf(p);
    }
  }

  /**
   * Piece `i` of a non-empty generated list is the entry of the stars drawn
   * by iteration `i`; with draws in [0, 1) on a non-empty canvas it spells two
   * non-negative decimals inside the canvas.
   */
  lemma GeneratedPieces(count: int, maxWidth: int, maxHeight: int, draws: seq<real>)
    requires 0 < count && 2 * count <= |draws|
    ensures |Split(Serialise(Pattern(count, maxWidth, maxHeight, draws)), Separator)| == count
    ensures forall i :: 0 <= i < count ==>
              Split(Serialise(Pattern(count, maxWidth, maxHeight, draws)), Separator)[i]
                == Entry(StarAt(draws, i, maxWidth, maxHeight))
    ensures ValidDraws(draws) && maxWidth > 0 && maxHeight > 0 ==>
              forall i :: 0 <= i < count ==>
                var s := StarAt(draws, i, maxWidth, maxHeight);
                && 0 <= s.x < maxWidth && 0 <= s.y < maxHeight
                && Split(Serialise(Pattern(count, maxWidth, maxHeight, draws)), Separator)[i]
                     == NatToString(s.x) + "px " + NatToString(s.y) + "px white"
  {
    var p := Pattern(count, maxWidth, maxHeight, draws);
    SerialisePieces(p);
    assert forall i :: 0 <= i < count ==> p[i] == StarAt(draws, i, maxWidth, maxHeight);
  }

  lemma EntriesShift(p: seq<Star>, i: nat)
    requires i + 1 < |p|
    ensures Entries(p)[1..][i] == Entries(p[1..])[i]
  {
    assert p[1..][i] == p[i + 1];
  }

  lemma SameElements<T>(a: seq<T>, b: seq<T>)
    requires |a| == |b| && forall i :: 0 <= i < |a| ==> a[i] == b[i]
    ensures a == b
  {
  }

  lemma TakeOneMore<T>(s: seq<T>, i: nat)
    requires i < |s|
    ensures s[..i + 1] == s[..i] + [s[i]]
  {
  }

  /**
   * `generateStarBoxShadow(count, maxWidth, maxHeight)`: draw the stars one
   * iteration at a time, push each formatted entry, then join them.
   */
  method GenerateStarBoxShadow(count: int, maxWidth: int, maxHeight: int, draws: seq<real>)
    returns (shadow: string)
    requires 2 * count <= |draws|
    ensures shadow == Serialise(Pattern(count, maxWidth, maxHeight, draws))
    ensures Decode(shadow) == Some(Pattern(count, maxWidth, maxHeight, draws))
    ensures shadow == "" <==> count <= 0
  {
    ghost var pattern := Pattern(count, maxWidth, maxHeight, draws);
    var stars: seq<string> := [];
    var i := 0;
    while i < count
      invariant 0 <= i <= Iterations(count)
      invariant stars == Entries(pattern)[..i]
    {
      var x := Coordinate(draws[2 * i], maxWidth);
      var y := Coordinate(draws[2 * i + 1], maxHeight);
      assert pattern[i] == Star(x, y);
      TakeOneMore(Entries(pattern), i);
      stars := stars + [Entry(Star(x, y))];
      i := i + 1;
    }
    assert stars == Entries(pattern) by {
      assert |Entries(pattern)| == i;
    }
    shadow := Join(stars, Separator);
    DecodeSerialise(pattern);
    SerialiseEmpty(pattern);
  }
}
