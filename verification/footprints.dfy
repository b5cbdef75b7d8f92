/** The footprint position extractor of CAD/scripts/extract_footprint_positions.py:
    a line-by-line pass over a board dump that remembers the category of the
    last recognised `footprint` line and files the next `position` line's
    coordinates under it. Coordinates are kept as the raw text tokens. */
module Footprints {
  import opened Common

  datatype Category = Switch | Mount | Audio | Usb

  /** The two coordinate tokens of a `position` line. */
  datatype Coord = Coord(x: string, y: string)

  /** The script's state: the active category (`False` in the script is
      `None` here) and the four lists, in the order the script declares them. */
  datatype Extracted = Extracted(
    active: Option<Category>,
    switches: seq<Coord>,
    mounts: seq<Coord>,
    audioJacks: seq<Coord>,
    usb: seq<Coord>)

  const Start: Extracted := Extracted(None, [], [], [], [])

  /** The list a category's positions are filed in. */
  function List(st: Extracted, c: Category): seq<Coord> {
    match c
    case Switch => st.switches
    case Mount => st.mounts
    case Audio => st.audioJacks
    case Usb => st.usb
  }

  /** Python's `sub in s`: `sub` occurs somewhere in `s`. */
  predicate Contains(s: string, sub: string)
    decreases |s|
  {
    sub <= s || (s != [] && Contains(s[1..], sub))
  }

  /** The footprint names that select a category, in the order they are tried. */
  const Keywords: seq<(string, Category)> :=
    [("Cherry", Switch), ("MountingHole", Mount), ("TRRS", Audio), ("USB_C_Receptacle", Usb)]

  /** The category of the first keyword in `table` that occurs in `line`. */
  function SelectFrom(line: string, table: seq<(string, Category)>): (r: Option<Category>)
    ensures r.None? <==> forall i :: 0 <= i < |table| ==> !Contains(line, table[i].0)
    ensures r.Some? ==> exists i :: 0 <= i < |table| && table[i].1 == r.value && Contains(line, table[i].0)
                                    && forall j :: 0 <= j < i ==> !Contains(line, table[j].0)
  {
    if table == [] then None
    else if Contains(line, table[0].0) then Some(table[0].1)
    else
      var r := SelectFrom(line, table[1..]);
      assert forall i :: 1 <= i < |table| ==> table[i] == table[1..][i - 1];
      if r.Some? then
        var k :| 0 <= k < |table[1..]| && table[1..][k].1 == r.value && Contains(line, table[1..][k].0)
                 && forall j :: 0 <= j < k ==> !Contains(line, table[1..][j].0);
        assert table[k + 1] == table[1..][k];
        r
      else r
  }

  /** The category a `footprint` line selects, if any. */
  function Select(line: string): Option<Category> {
    SelectFrom(line, Keywords)
  }

  /** The `if`/`elif` chain on a `footprint` line: "Cherry" is tried first,
      then "MountingHole", "TRRS" and "USB_C_Receptacle"; the first match wins,
      and a line with none of them selects nothing. */
  lemma SelectFirstMatch(line: string)
    ensures Select(line) == (
      if Contains(line, "Cherry") then Some(Switch)
      else if Contains(line, "MountingHole") then Some(Mount)
      else if Contains(line, "TRRS") then Some(Audio)
      else if Contains(line, "USB_C_Receptacle") then Some(Usb)
      else None)
  {
    var t0 := Keywords;
    var t1 := [("MountingHole", Mount), ("TRRS", Audio), ("USB_C_Receptacle", Usb)];
    var t2 := [("TRRS", Audio), ("USB_C_Receptacle", Usb)];
    var t3 := [("USB_C_Receptacle", Usb)];
    assert t0[1..] == t1 && t1[1..] == t2 && t2[1..] == t3 && t3[1..] == [];
    assert SelectFrom(line, t3) == (if Contains(line, "USB_C_Receptacle") then Some(Usb) else None);
    assert SelectFrom(line, t2) == (if Contains(line, "TRRS") then Some(Audio) else SelectFrom(line, t3));
    assert SelectFrom(line, t1) == (if Contains(line, "MountingHole") then Some(Mount) else SelectFrom(line, t2));
  }

  /** Python's `s.split(sep)` with an explicit separator: the pieces between
      separators, empty pieces included. */
  function Split(s: string, sep: char): (parts: seq<string>)
    ensures |parts| >= 1
    decreases |s|
  {
    if s == [] then [""]
    else
      var rest := Split(s[1..], sep);
      if s[0] == sep then [""] + rest
      else [[s[0]] + rest[0]] + rest[1..]
  }

  /** Python's `sep.join(parts)`. */
  function Join(parts: seq<string>, sep: char): string
    requires |parts| >= 1
    decreases |parts|
  {
    if |parts| == 1 then parts[0] else parts[0] + [sep] + Join(parts[1..], sep)
  }

  /** Splitting loses nothing: joining the pieces gives the line back, and no
      piece contains the separator. */
  lemma {:induction false} SplitJoin(s: string, sep: char)
    ensures Join(Split(s, sep), sep) == s
    ensures forall i :: 0 <= i < |Split(s, sep)| ==> sep !in Split(s, sep)[i]
    decreases |s|
  {
    if s != [] {
      var rest := Split(s[1..], sep);
      SplitJoin(s[1..], sep);
      if s[0] == sep {
        assert ([""] + rest)[1..] == rest;
        assert s == [s[0]] + s[1..];
      } else {
        var parts := [[s[0]] + rest[0]] + rest[1..];
        if |rest| == 1 {
          assert s == [s[0]] + rest[0];
        } else {
          assert parts[1..] == rest[1..];
          assert Join(rest, sep) == rest[0] + [sep] + Join(rest[1..], sep);
          assert s == [s[0]] + Join(rest, sep);
        }
        forall i | 0 <= i < |parts|
          ensures sep !in parts[i]
        {
          if i > 0 {
            assert parts[i] == rest[i];
          }
        }
      }
    }
  }

  /** Files a coordinate pair under a category; the other lists are untouched. */
  function Record(st: Extracted, c: Category, p: Coord): (r: Extracted)
    ensures List(r, c) == List(st, c) + [p]
    ensures forall d :: d != c ==> List(r, d) == List(st, d)
    ensures r.active == st.active
  {
    match c
    case Switch => st.(switches := st.switches + [p])
    case Mount => st.(mounts := st.mounts + [p])
    case Audio => st.(audioJacks := st.audioJacks + [p])
    case Usb => st.(usb := st.usb + [p])
  }

  /** One iteration of the script's main loop. A recognised `footprint` line
      makes its category active; an unrecognised one leaves the state as it
      is. A `position` line while a category is active files `parts[1]` and
      `parts[2]` of the line split on spaces under that category and
      deactivates it; it fails (the script's `IndexError`) when the line has
      fewer than three pieces. Every other line changes nothing. */
  function Step(st: Extracted, line: string): (r: Result<Extracted>)
    ensures !("footprint" <= line) && !("position" <= line) ==> r == Ok(st)
    ensures "footprint" <= line ==> r.Ok?
    ensures "footprint" <= line ==> forall c :: List(r.value, c) == List(st, c)
    ensures "footprint" <= line ==> r.value.active == (if Select(line).Some? then Select(line) else st.active)
    ensures "position" <= line && st.active.None? ==> r == Ok(st)
    ensures "position" <= line && st.active.Some? ==> (r.Err? <==> |Split(line, ' ')| < 3)
    ensures "position" <= line && st.active.Some? && r.Ok? ==>
      && r.value.active.None?
      && List(r.value, st.active.value) == List(st, st.active.value) + [Coord(Split(line, ' ')[1], Split(line, ' ')[2])]
      && forall d :: d != st.active.value ==> List(r.value, d) == List(st, d)
  {
    var active :=
      if "footprint" <= line then
        match Select(line)
        case Some(c) => Some(c)
        case None => st.active
      else st.active;
    if "position" <= line && active.Some? then
      var parts := Split(line, ' ');
      if |parts| < 3 then Err
      else Ok(Record(st, active.value, Coord(parts[1], parts[2])).(active := None))
    else
      Ok(st.(active := active))
  }

  /** The main loop from a given state; the first failing line aborts. */
  function RunFrom(st: Extracted, lines: seq<string>): Result<Extracted>
    decreases |lines|
  {
    if lines == [] then Ok(st)
    else
      match Step(st, lines[0])
      case Err => Err
      case Ok(next) => RunFrom(next, lines[1..])
  }

  /** The whole script over the input's lines. */
  function Extract(lines: seq<string>): Result<Extracted> {
    RunFrom(Start, lines)
  }

  /** Positions are only ever appended: each list of an earlier state is a
      prefix of the same list later on, so every list keeps the input order
      of the lines it was filled from. */
  lemma {:induction false} ListsOnlyGrow(st: Extracted, lines: seq<string>)
    ensures RunFrom(st, lines).Ok? ==> forall c :: List(st, c) <= List(RunFrom(st, lines).value, c)
    decreases |lines|
  {
    if lines != [] {
      var s := Step(st, lines[0]);
      if s.Ok? {
        ListsOnlyGrow(s.value, lines[1..]);
        forall c
          ensures List(st, c) <= List(s.value, c)
        {
        }
      }
    }
  }

  /** Number of `footprint` lines that select a category. */
  function Selecting(lines: seq<string>): nat
    decreases |lines|
  {
    if lines == [] then 0
    else (if "footprint" <= lines[0] && Select(lines[0]).Some? then 1 else 0) + Selecting(lines[1..])
  }

  function Recorded(st: Extracted): nat {
    |st.switches| + |st.mounts| + |st.audioJacks| + |st.usb|
  }

  function Pending(st: Extracted): nat {
    if st.active.Some? then 1 else 0
  }

  /** Each recognised footprint contributes at most one coordinate pair: the
      positions filed, plus the one still pending, never outnumber the
      recognised `footprint` lines. */
  lemma {:induction false} OnePerFootprint(st: Extracted, lines: seq<string>)
    ensures RunFrom(st, lines).Ok? ==>
      Recorded(RunFrom(st, lines).value) + Pending(RunFrom(st, lines).value)
        <= Recorded(st) + Pending(st) + Selecting(lines)
    decreases |lines|
  {
    if lines != [] {
      var s := Step(st, lines[0]);
      if s.Ok? {
        OnePerFootprint(s.value, lines[1..]);
        assert Recorded(s.value) + Pending(s.value)
          <= Recorded(st) + Pending(st) + (if "footprint" <= lines[0] && Select(lines[0]).Some? then 1 else 0) by {
          if "position" <= lines[0] && st.active.Some? {
            var c := st.active.value;
            assert List(s.value, c) == List(st, c) + [Coord(Split(lines[0], ' ')[1], Split(lines[0], ' ')[2])];
            assert forall d :: d != c ==> List(s.value, d) == List(st, d);
            assert Recorded(s.value) == Recorded(st) + 1 by {
              match c
              case Switch =>
              case Mount =>
              case Audio =>
              case Usb =>
            }
          } else if "footprint" <= lines[0] {
            assert forall d :: List(s.value, d) == List(st, d);
            assert Recorded(s.value) == Recorded(st) by {
              assert s.value.switches == st.switches by { assert List(s.value, Switch) == List(st, Switch); }
              assert s.value.mounts == st.mounts by { assert List(s.value, Mount) == List(st, Mount); }
              assert s.value.audioJacks == st.audioJacks by { assert List(s.value, Audio) == List(st, Audio); }
              assert s.value.usb == st.usb by { assert List(s.value, Usb) == List(st, Usb); }
            }
          }
        }
      }
    }
  }

  /** Over a whole input, the four lists together hold no more pairs than
      there are recognised `footprint` lines. */
  lemma ExtractBounded(lines: seq<string>)
    ensures Extract(lines).Ok? ==> Recorded(Extract(lines).value) <= Selecting(lines)
  {
    OnePerFootprint(Start, lines);
  }

  /** A `footprint` line naming none of the keywords does not reset the
      category: a position after it is filed under the category of the last
      recognised footprint before it. */
  lemma UnrecognisedFootprintKeepsCategory(st: Extracted, f: string, g: string, p: string, c: Category)
    requires "footprint" <= f && Select(f) == Some(c)
    requires "footprint" <= g && Select(g).None?
    requires "position" <= p && |Split(p, ' ')| >= 3
    ensures RunFrom(st, [f, g, p]).Ok?
    ensures var r := RunFrom(st, [f, g, p]).value;
      && r.active.None?
      && List(r, c) == List(st, c) + [Coord(Split(p, ' ')[1], Split(p, ' ')[2])]
      && forall d :: d != c ==> List(r, d) == List(st, d)
  {
    assert f[0] == 'f' && g[0] == 'f' && p[0] == 'p';
    assert !("position" <= f) && !("position" <= g) && !("footprint" <= p);
    var s1 := Step(st, f).value;
    var s2 := Step(s1, g).value;
    assert s2.active == Some(c);
    assert forall d :: List(s2, d) == List(st, d);
    assert [f, g, p][1..] == [g, p] && [g, p][1..] == [p] && [p][1..] == [];
    var s3 := Step(s2, p);
    assert s3.Ok?;
    assert RunFrom(s2, [p]) == s3;
    assert RunFrom(s1, [g, p]) == s3;
    assert RunFrom(st, [f, g, p]) == s3;
  }
}
