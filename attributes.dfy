/**
  The attribute registry of the conveniences module: `_load_attributes` reads the
  attribute documentation line by line into the list of attribute names and section
  titles (`_ATTRIBUTES`) and the dictionary of range-checked names (`_ATTR_MAXES`);
  `check_satrec` validates a satellite against those ranges and `dump_satrec` lists
  its attributes, optionally beside a second satellite's.

  A satellite's attributes are a map from attribute name to value; a name missing
  from the map is an attribute the record does not have.
 */
module SatrecAttributes {
  import opened Wrappers
  import opened Strings

  // ---------------------------------------------------------------- _MAX_VALUES

  /** The keys of `_MAX_VALUES`. */
  datatype MaxName = TwoPi | Pi

  /** `math.pi`, the double nearest to pi. */
  const PiValue: real := 884279719003555.0 / 281474976710656.0

  function MaxValue(m: MaxName): (v: real)
    ensures 3.14159 < v < 3.1416 || 6.28318 < v < 6.2832
    ensures v == if m == TwoPi then 2.0 * PiValue else PiValue
  {
    match m
    case TwoPi => 2.0 * PiValue
    case Pi => PiValue
  }

  // ---------------------------------------------------------------- _load_attributes

  datatype Registry = Registry(attributes: seq<string>, maxes: map<string, MaxName>)

  /** The names the `while pieces[i] == ', '` loop appends from `pieces[i..]`; `complete`
      is false when an index runs past the end (IndexError). */
  datatype Names = Names(names: seq<string>, complete: bool)

  function MoreNames(pieces: seq<string>, i: nat): Names
    decreases |pieces| - i
  {
    if i >= |pieces| then Names([], false)
    else if pieces[i] != ", " then Names([], true)
    else if i + 1 >= |pieces| then Names([], false)
    else
      var rest := MoreNames(pieces, i + 2);
      Names([pieces[i + 1]] + rest.names, rest.complete)
  }

  /** `r` is what the loop collects from `pieces[i..]`: name k is the piece after the
      k-th ", " from `i`. Collection stops at the first piece that is not ", " (complete),
      or where a piece, or the name after a ", ", is missing (IndexError). */
  predicate NamesFrom(pieces: seq<string>, i: nat, r: Names) {
    (forall k :: 0 <= k < |r.names| ==>
       i + 2 * k + 1 < |pieces| && pieces[i + 2 * k] == ", " && r.names[k] == pieces[i + 2 * k + 1])
    && (r.complete <==> i + 2 * |r.names| < |pieces| && pieces[i + 2 * |r.names|] != ", ")
    && (!r.complete ==> i + 2 * |r.names| + 1 >= |pieces|)
  }

  lemma {:induction false} MoreNamesMeaning(pieces: seq<string>, i: nat)
    ensures NamesFrom(pieces, i, MoreNames(pieces, i))
    decreases |pieces| - i
  {
    if i < |pieces| && pieces[i] == ", " && i + 1 < |pieces| {
      MoreNamesMeaning(pieces, i + 2);
      NamesFromCons(pieces, i, MoreNames(pieces, i + 2));
    }
  }

  /** One more ", " and name in front of what the loop collects from `i + 2`. */
  lemma NamesFromCons(pieces: seq<string>, i: nat, rest: Names)
    requires i + 1 < |pieces| && pieces[i] == ", " && NamesFrom(pieces, i + 2, rest)
    ensures NamesFrom(pieces, i, Names([pieces[i + 1]] + rest.names, rest.complete))
  {
    var names := [pieces[i + 1]] + rest.names;
    forall k | 0 <= k < |names|
      ensures i + 2 * k + 1 < |pieces| && pieces[i + 2 * k] == ", " && names[k] == pieces[i + 2 * k + 1]
    {
      if k > 0 {
        var k' := k - 1;
        assert names[k] == rest.names[k'];
        assert i + 2 * k == (i + 2) + 2 * k';
      }
    }
    assert i + 2 * |names| == (i + 2) + 2 * |rest.names|;
  }

  const FieldPrefix: string := "| ``"

  /** The IndexError a documentation line can raise. */
  const LoadError: string := "IndexError: list index out of range"

  /** The bound of a range-checked name: 2pi when the line mentions "2pi", else pi. */
  function BoundOf(line: string): MaxName {
    if Contains(line, "2pi") then TwoPi else Pi
  }

  /** A text that contains the separator splits into at least two pieces. */
  lemma SplitAtSeparator(s: string, sep: string)
    requires |sep| > 0 && Contains(s, sep)
    ensures |Split(s, sep)| >= 2
  {
    var i := IndexOf(s, sep).value;
    assert Split(s, sep) == [s[..i]] + Split(s[i + |sep|..], sep);
  }

  lemma FieldLineSplits(line: string)
    requires StartsWith(line, FieldPrefix)
    ensures |Split(line, "``")| >= 2
  {
    assert OccursAt(line, "``", 2) by {
      assert line[2..4] == FieldPrefix[2..4];
    }
    SplitAtSeparator(line, "``");
  }

  /** What one documentation line does: a line ending in '*' adds a section title; a line
      starting with "| ``" adds its first name and each further ", "-separated name, and
      when it contains '<' bounds the first name only. The flag is false when the line
      raises IndexError, after the names appended so far. */
  function ReadLine(line: string, reg: Registry): (Registry, bool)
  {
    if EndsWith(line, "*") then (Registry(reg.attributes + [StripStars(line)], reg.maxes), true)
    else if StartsWith(line, FieldPrefix) then
      FieldLineSplits(line);
      var pieces := Split(line, "``");
      var name := pieces[1];
      var more := MoreNames(pieces, 2);
      var attrs := reg.attributes + [name] + more.names;
      if !more.complete then (Registry(attrs, reg.maxes), false)
      else if Contains(line, "<") then (Registry(attrs, reg.maxes[name := BoundOf(line)]), true)
      else (Registry(attrs, reg.maxes), true)
    else (reg, true)
  }

  /** The lines in order, stopping at the first that raises. */
  function ReadLines(lines: seq<string>, reg: Registry): (r: (Registry, bool))
    decreases |lines|
  {
    if lines == [] then (reg, true)
    else
      var step := ReadLine(lines[0], reg);
      if step.1 then ReadLines(lines[1..], step.0) else step
  }

  /** Every range-checked name is also a listed attribute. */
  predicate BoundsListed(reg: Registry) {
    forall k :: k in reg.maxes ==> k in reg.attributes
  }

  /** Loading only appends: the list keeps its old entries in front, no bound disappears,
      and every range-checked name stays a listed attribute. */
  lemma {:induction false} ReadLinesGrows(lines: seq<string>, reg: Registry)
    ensures reg.attributes <= ReadLines(lines, reg).0.attributes
    ensures reg.maxes.Keys <= ReadLines(lines, reg).0.maxes.Keys
    ensures BoundsListed(reg) ==> BoundsListed(ReadLines(lines, reg).0)
    decreases |lines|
  {
    if lines != [] {
      var step := ReadLine(lines[0], reg);
      ReadLineAppends(lines[0], reg);
      ReadLineKeepsBoundsListed(lines[0], reg);
      if step.1 {
        ReadLinesGrows(lines[1..], step.0);
      }
    }
  }

  /** One line keeps the old entries in front and the old bounds' names, and every name
      it bounds (anew or again) is one it appended. */
  lemma ReadLineAppends(line: string, reg: Registry)
    ensures var r := ReadLine(line, reg).0;
      reg.attributes <= r.attributes
      && reg.maxes.Keys <= r.maxes.Keys
      && forall k :: k in r.maxes && (k !in reg.maxes || r.maxes[k] != reg.maxes[k]) ==>
           k in r.attributes[|reg.attributes|..]
  {
    if !EndsWith(line, "*") && StartsWith(line, FieldPrefix) {
      FieldLineSplits(line);
      var pieces := Split(line, "``");
      var more := MoreNames(pieces, 2);
      var attrs := reg.attributes + [pieces[1]] + more.names;
      assert attrs[|reg.attributes|..][0] == pieces[1];
    }
  }

  lemma ReadLineKeepsBoundsListed(line: string, reg: Registry)
    ensures BoundsListed(reg) ==> BoundsListed(ReadLine(line, reg).0)
  {
    var r := ReadLine(line, reg).0;
    ReadLineAppends(line, reg);
    if BoundsListed(reg) {
      forall k | k in r.maxes ensures k in r.attributes {
        if k in reg.maxes {
          var j :| 0 <= j < |reg.attributes| && reg.attributes[j] == k;
          assert r.attributes[j] == k;
        } else {
          var j :| 0 <= j < |r.attributes[|reg.attributes|..]| && r.attributes[|reg.attributes|..][j] == k;
          assert r.attributes[|reg.attributes| + j] == k;
        }
      }
    }
  }

  /** Reading a newline-terminated text reads exactly its lines. */
  lemma ReadTerminated(lines: seq<string>, reg: Registry)
    requires forall k :: 0 <= k < |lines| ==> NoLineBreaks(lines[k])
    ensures ReadLines(SplitLines(Terminated(lines)), reg) == ReadLines(lines, reg)
  {
    SplitLinesTerminated(lines);
  }

  /** The pieces of a field line "| ``n0``, ``n1``, ... ``nk``tail" split at "``":
      the opening "| ", the first name, a ", " before each further name, then the tail. */
  function FieldPieces(names: seq<string>, tail: string): seq<string>
    requires names != []
  {
    ["| ", names[0]] + MorePieces(names[1..]) + [tail]
  }

  function MorePieces(names: seq<string>): seq<string>
    decreases |names|
  {
    if names == [] then [] else [", ", names[0]] + MorePieces(names[1..])
  }

  /** The documentation line listing `names`, followed by `tail`. */
  function FieldLine(names: seq<string>, tail: string): string
    requires names != []
  {
    Join(FieldPieces(names, tail), "``")
  }

  /** A name as the documentation writes it: no "``" inside and no final backtick, so
      the "``" closing it is the first one found. */
  predicate NameText(n: string) {
    !Contains(n, "``") && (n == [] || n[|n| - 1] != '`')
  }

  lemma {:induction false} MorePiecesAt(names: seq<string>)
    ensures |MorePieces(names)| == 2 * |names|
    ensures forall k :: 0 <= k < |names| ==>
      MorePieces(names)[2 * k] == ", " && MorePieces(names)[2 * k + 1] == names[k]
    decreases |names|
  {
    if names != [] {
      MorePiecesAt(names[1..]);
      var rest := MorePieces(names[1..]);
      forall k | 1 <= k < |names|
        ensures MorePieces(names)[2 * k] == ", " && MorePieces(names)[2 * k + 1] == names[k]
      {
        assert MorePieces(names)[2 * k] == rest[2 * (k - 1)];
        assert MorePieces(names)[2 * k + 1] == rest[2 * (k - 1) + 1];
      }
    }
  }

  /** Where each part of a field line sits among its pieces. */
  lemma FieldPiecesAt(names: seq<string>, tail: string)
    requires names != []
    ensures var pieces := FieldPieces(names, tail);
      |pieces| == 2 * |names| + 1 && pieces[0] == "| " && pieces[2 * |names|] == tail
      && (forall k :: 0 <= k < |names| ==> pieces[2 * k + 1] == names[k])
      && (forall k :: 1 <= k < |names| ==> pieces[2 * k] == ", ")
  {
    var pieces := FieldPieces(names, tail);
    var more := MorePieces(names[1..]);
    MorePiecesAt(names[1..]);
    assert forall i :: 0 <= i < |more| ==> pieces[2 + i] == more[i];
    forall k | 1 <= k < |names| ensures pieces[2 * k + 1] == names[k] && pieces[2 * k] == ", " {
      assert pieces[2 * k] == more[2 * (k - 1)];
      assert pieces[2 * k + 1] == more[2 * (k - 1) + 1];
    }
  }

  lemma NameTextOfSeparators()
    ensures NameText("| ") && NameText(", ")
  {
    assert "| "[..2][0] != "``"[0] && "| "[1..] == " ";
    assert ", "[..2][0] != "``"[0] && ", "[1..] == " ";
    assert IndexOf(" ", "``") == None;
  }

  lemma NameSplits(n: string)
    requires NameText(n)
    ensures SplitsAfter(n, "``")
  {
    forall j | 0 <= j < |n| ensures !OccursAt(n + "``", "``", j) {
      if j + 2 <= |n| {
        assert (n + "``")[j..j + 2] == n[j..j + 2];
        assert !OccursAt(n, "``", j);
      } else {
        var w := (n + "``")[j..j + 2];
        assert w[0] == n[|n| - 1];
        assert w[0] != "``"[0];
      }
    }
  }

  /** The ", " loop over a field line's pieces takes every further name and stops at
      the tail, whatever pieces follow it. */
  lemma MoreNamesOfField(names: seq<string>, tail: string, rest: seq<string>)
    requires names != [] && tail != ", "
    ensures MoreNames(FieldPieces(names, tail) + rest, 2) == Names(names[1..], true)
  {
    var field := FieldPieces(names, tail);
    var pieces := field + rest;
    var m := |names| - 1;
    FieldPiecesAt(names, tail);
    assert forall i :: 0 <= i < |field| ==> pieces[i] == field[i];
    MoreNamesMeaning(pieces, 2);
    var r := MoreNames(pieces, 2);
    forall k | 0 <= k < m ensures pieces[2 + 2 * k] == ", " && pieces[2 + 2 * k + 1] == names[1..][k] {
      var j := k + 1;
      assert field[2 * j] == ", " && field[2 * j + 1] == names[j];
      assert 2 + 2 * k == 2 * j && names[1..][k] == names[j];
    }
    assert pieces[2 + 2 * m] == tail;
    assert |r.names| == m;
    forall k | 0 <= k < m ensures r.names[k] == names[1..][k] {
      assert r.names[k] == pieces[2 + 2 * k + 1];
    }
    assert r.names == names[1..];
  }

  /** A field line splits at "``" into its pieces up to the tail, then the pieces of
      the tail. */
  lemma FieldLineSplit(names: seq<string>, tail: string)
    requires names != [] && forall k :: 0 <= k < |names| ==> NameText(names[k])
    ensures var rest := Split(tail, "``");
      Split(FieldLine(names, tail), "``") == FieldPieces(names, rest[0]) + rest[1..]
  {
    var pieces := FieldPieces(names, tail);
    FieldPiecesAt(names, tail);
    NameTextOfSeparators();
    forall k | 0 <= k < |pieces| - 1 ensures SplitsAfter(pieces[k], "``") {
      if k % 2 == 1 {
        assert pieces[2 * ((k - 1) / 2) + 1] == names[(k - 1) / 2];
      } else if k > 0 {
        assert pieces[2 * (k / 2)] == ", ";
      }
      NameSplits(pieces[k]);
    }
    JoinSplit(pieces, "``");
    var rest := Split(tail, "``");
    var front := ["| ", names[0]] + MorePieces(names[1..]);
    assert pieces[..|pieces| - 1] == front;
    assert front + rest == front + [rest[0]] + rest[1..];
  }

  /** A field line starts with "| ``", and it ends in '*' only when its tail does. */
  lemma FieldLineEnds(names: seq<string>, tail: string)
    requires names != []
    ensures StartsWith(FieldLine(names, tail), FieldPrefix)
    ensures EndsWith(FieldLine(names, tail), "*") <==> EndsWith(tail, "*")
  {
    var pieces := FieldPieces(names, tail);
    var line := FieldLine(names, tail);
    JoinCons(pieces[0], pieces[1..], "``");
    assert [pieces[0]] + pieces[1..] == pieces;
    assert line[..4] == FieldPrefix;
    JoinSnoc(pieces[..|pieces| - 1], tail, "``");
    assert pieces[..|pieces| - 1] + [tail] == pieces;
    if tail == [] {
      assert line[|line| - 1] == '`';
    } else {
      assert line[|line| - 1] == tail[|tail| - 1];
    }
  }

  /** Reading a field line appends exactly its names, in order, and bounds only the
      first name, and only when the line contains '<'. */
  lemma FieldLineRead(names: seq<string>, tail: string, reg: Registry)
    requires names != [] && forall k :: 0 <= k < |names| ==> NameText(names[k])
    requires Split(tail, "``")[0] != ", " && !EndsWith(tail, "*")
    ensures var line := FieldLine(names, tail);
      ReadLine(line, reg)
        == (Registry(reg.attributes + names,
                     if Contains(line, "<") then reg.maxes[names[0] := BoundOf(line)] else reg.maxes),
            true)
  {
    var rest := Split(tail, "``");
    FieldLineSplit(names, tail);
    FieldLineEnds(names, tail);
    FieldPiecesAt(names, rest[0]);
    MoreNamesOfField(names, rest[0], rest[1..]);
    assert reg.attributes + [names[0]] + names[1..] == reg.attributes + names;
  }

  // ---------------------------------------------------------------- sorted(_ATTR_MAXES.items())

  /** Python's `<` on strings: code point by code point, a proper prefix first. */
  predicate LexLess(a: string, b: string)
    decreases |a|
  {
    if a == [] then b != []
    else if b == [] then false
    else a[0] < b[0] || (a[0] == b[0] && LexLess(a[1..], b[1..]))
  }

  lemma {:induction false} LexIrreflexive(a: string)
    ensures !LexLess(a, a)
    decreases |a|
  {
    if a != [] {
      LexIrreflexive(a[1..]);
    }
  }

  lemma {:induction false} LexTransitive(a: string, b: string, c: string)
    requires LexLess(a, b) && LexLess(b, c)
    ensures LexLess(a, c)
    decreases |a|
  {
    if a != [] && b != [] && c != [] && a[0] == b[0] && b[0] == c[0] {
      LexTransitive(a[1..], b[1..], c[1..]);
    }
  }

  lemma {:induction false} LexTotal(a: string, b: string)
    ensures a == b || LexLess(a, b) || LexLess(b, a)
    decreases |a|
  {
    if a != [] && b != [] && a[0] == b[0] {
      LexTotal(a[1..], b[1..]);
      if a[1..] == b[1..] {
        assert a == [a[0]] + a[1..] && b == [b[0]] + b[1..];
      }
    }
  }

  predicate IsLeast(m: string, s: set<string>) {
    m in s && forall x :: x in s && x != m ==> LexLess(m, x)
  }

  lemma {:induction false} LeastExists(s: set<string>)
    requires s != {}
    ensures exists m :: IsLeast(m, s)
    decreases |s|
  {
    var x :| x in s;
    var rest := s - {x};
    if rest == {} {
      assert s == {x};
      assert IsLeast(x, s);
    } else {
      LeastExists(rest);
      var m :| IsLeast(m, rest);
      LexTotal(x, m);
      if LexLess(x, m) {
        forall y | y in s && y != x ensures LexLess(x, y) {
          if y != m {
            LexTransitive(x, m, y);
          }
        }
        assert IsLeast(x, s);
      } else {
        assert IsLeast(m, s);
      }
    }
  }

  lemma LeastUnique(a: string, b: string, s: set<string>)
    requires IsLeast(a, s) && IsLeast(b, s)
    ensures a == b
  {
    if a != b {
      LexTransitive(a, b, a);
      LexIrreflexive(a);
    }
  }

  /** The names of a finite set in ascending order. */
  ghost function SortedNames(s: set<string>): (r: seq<string>)
    ensures forall i :: 0 <= i < |r| ==> r[i] in s
    decreases |s|
  {
    if s == {} then []
    else
      LeastExists(s);
      var m :| IsLeast(m, s);
      [m] + SortedNames(s - {m})
  }

  /** The ascending order lists every name of the set once, each before the greater. */
  lemma SortedNamesMeaning(s: set<string>)
    ensures |SortedNames(s)| == |s|
    ensures forall x :: x in s <==> x in SortedNames(s)
    ensures StrictlySorted(SortedNames(s))
  {
    SortedNamesMembers(s);
    SortedNamesAscend(s);
  }

  lemma {:induction false} SortedNamesMembers(s: set<string>)
    ensures |SortedNames(s)| == |s|
    ensures forall x :: x in s <==> x in SortedNames(s)
    decreases |s|
  {
    if s != {} {
      LeastExists(s);
      var m :| IsLeast(m, s);
      SortedNamesStep(s, m);
      var tail := SortedNames(s - {m});
      SortedNamesMembers(s - {m});
      var r := [m] + tail;
      forall x | x in r ensures x in s {
        if x != m {
          assert x in tail;
        }
      }
    }
  }

  lemma {:induction false} SortedNamesAscend(s: set<string>)
    ensures StrictlySorted(SortedNames(s))
    decreases |s|
  {
    if s != {} {
      LeastExists(s);
      var m :| IsLeast(m, s);
      SortedNamesStep(s, m);
      var tail := SortedNames(s - {m});
      SortedNamesAscend(s - {m});
      var r := [m] + tail;
      forall i, j | 0 <= i < j < |r| ensures LexLess(r[i], r[j]) {
        assert r[j] == tail[j - 1];
        if i > 0 {
          assert r[i] == tail[i - 1];
        }
      }
    }
  }

  /** The ascending order starts with the least name and goes on with the rest. */
  lemma SortedNamesStep(s: set<string>, m: string)
    requires IsLeast(m, s)
    ensures SortedNames(s) == [m] + SortedNames(s - {m})
  {
    LeastExists(s);
    var m' :| IsLeast(m', s) && SortedNames(s) == [m'] + SortedNames(s - {m'});
    LeastUnique(m, m', s);
  }

  // ---------------------------------------------------------------- check_satrec

  datatype Violation = Violation(name: string, value: real, maxName: MaxName)

  datatype CheckError =
    | LoadFailed(message: string)        // `_load_attributes` raised
    | MissingAttribute(name: string)     // `getattr` raised AttributeError
    | OutOfRange(violations: seq<Violation>)  // the ValueError listing every violation

  predicate InRange(value: real, m: MaxName) {
    0.0 <= value < MaxValue(m)
  }

  /** The checking loop over `names` in order: the first name the satellite lacks, or the
      list of names whose value is outside [0, max). */
  function Examine(names: seq<string>, maxes: map<string, MaxName>, sat: map<string, real>)
    : (r: Result<seq<Violation>, string>)
    requires forall i :: 0 <= i < |names| ==> names[i] in maxes
    decreases |names|
  {
    if names == [] then Ok([])
    else
      var n := names[0];
      if n !in sat then Err(n)
      else
        match Examine(names[1..], maxes, sat)
        case Err(missing) => Err(missing)
        case Ok(rest) => Ok(Flagged(n, maxes, sat) + rest)
  }

  /** The violation a present name contributes: none when its value is in range. */
  function Flagged(n: string, maxes: map<string, MaxName>, sat: map<string, real>): seq<Violation>
    requires n in maxes && n in sat
  {
    if InRange(sat[n], maxes[n]) then [] else [Violation(n, sat[n], maxes[n])]
  }

  /** The loop fails exactly when a name is missing, and then names a missing one;
      otherwise it lists every name whose value is outside [0, max), and only those. */
  lemma {:induction false} ExamineMeaning(names: seq<string>, maxes: map<string, MaxName>, sat: map<string, real>)
    requires forall i :: 0 <= i < |names| ==> names[i] in maxes
    ensures var r := Examine(names, maxes, sat);
      (r.Ok? <==> forall i :: 0 <= i < |names| ==> names[i] in sat)
      && (r.Err? ==> r.error in names && r.error !in sat)
      && (r.Ok? ==> forall v :: v in r.value ==>
            v.name in names && v.value == sat[v.name] && v.maxName == maxes[v.name]
            && !InRange(v.value, v.maxName))
      && (r.Ok? ==> forall i :: 0 <= i < |names| && !InRange(sat[names[i]], maxes[names[i]]) ==>
            Violation(names[i], sat[names[i]], maxes[names[i]]) in r.value)
    decreases |names|
  {
    if names != [] {
      var n := names[0];
      var tail := names[1..];
      if n in sat {
        ExamineMeaning(tail, maxes, sat);
        assert forall i :: 1 <= i < |names| ==> names[i] == tail[i - 1];
        match Examine(tail, maxes, sat)
        case Err(missing) =>
          var i :| 0 <= i < |tail| && tail[i] !in sat;
          assert names[i + 1] !in sat;
        case Ok(rest) =>
          var all := Flagged(n, maxes, sat) + rest;
          assert forall v :: v in all ==> v in Flagged(n, maxes, sat) || v in rest;
      }
    }
  }

  predicate StrictlySorted(names: seq<string>) {
    forall i, j :: 0 <= i < j < |names| ==> LexLess(names[i], names[j])
  }

  predicate NamesAscend(vs: seq<Violation>) {
    forall i, j :: 0 <= i < j < |vs| ==> LexLess(vs[i].name, vs[j].name)
  }

  /** The violations come out in the order of the names examined. */
  lemma {:induction false} ExamineSorted(names: seq<string>, maxes: map<string, MaxName>, sat: map<string, real>)
    requires forall i :: 0 <= i < |names| ==> names[i] in maxes
    requires StrictlySorted(names)
    ensures Examine(names, maxes, sat).Ok? ==> NamesAscend(Examine(names, maxes, sat).value)
    decreases |names|
  {
    if names != [] && names[0] in sat {
      var tail := names[1..];
      assert StrictlySorted(tail) by {
        forall i, j | 0 <= i < j < |tail| ensures LexLess(tail[i], tail[j]) {
          assert tail[i] == names[i + 1] && tail[j] == names[j + 1];
        }
      }
      ExamineSorted(tail, maxes, sat);
      ExamineMeaning(tail, maxes, sat);
      var r := Examine(tail, maxes, sat);
      if r.Ok? {
        var n := names[0];
        forall v | v in r.value ensures LexLess(n, v.name) {
          var q :| 0 <= q < |tail| && tail[q] == v.name;
          assert names[q + 1] == v.name;
        }
        if !InRange(sat[n], maxes[n]) {
          PrependAscends(Violation(n, sat[n], maxes[n]), r.value);
        } else {
          assert Flagged(n, maxes, sat) + r.value == r.value;
        }
      }
    }
  }

  lemma PrependAscends(v: Violation, vs: seq<Violation>)
    requires NamesAscend(vs)
    requires forall w :: w in vs ==> LexLess(v.name, w.name)
    ensures NamesAscend([v] + vs)
  {
    var all := [v] + vs;
    forall i, j | 0 <= i < j < |all| ensures LexLess(all[i].name, all[j].name) {
      assert all[j] == vs[j - 1];
      if i > 0 {
        assert all[i] == vs[i - 1];
      } else {
        assert vs[j - 1] in vs;
      }
    }
  }

  /** The name reported missing is the first missing one in the order examined. */
  lemma {:induction false} ExamineFirstMissing(names: seq<string>, maxes: map<string, MaxName>, sat: map<string, real>)
    requires forall i :: 0 <= i < |names| ==> names[i] in maxes
    ensures Examine(names, maxes, sat).Err? ==>
      exists i :: 0 <= i < |names| && names[i] == Examine(names, maxes, sat).error
                  && forall j :: 0 <= j < i ==> names[j] in sat
    decreases |names|
  {
    if names != [] && names[0] in sat {
      ExamineFirstMissing(names[1..], maxes, sat);
      var r := Examine(names[1..], maxes, sat);
      if r.Err? {
        var i :| 0 <= i < |names[1..]| && names[1..][i] == r.error
                 && forall j :: 0 <= j < i ==> names[1..][j] in sat;
        assert names[i + 1] == r.error;
        assert forall j :: 1 <= j < i + 1 ==> names[j] == names[1..][j - 1];
      }
    } else if names != [] {
      assert names[0] == Examine(names, maxes, sat).error;
    }
  }

  /** `check_satrec` on a loaded registry: the bounded names in ascending order. */
  ghost function Check(maxes: map<string, MaxName>, sat: map<string, real>): Result<(), CheckError> {
    Finish([], Examine(SortedNames(maxes.Keys), maxes, sat))
  }

  /** The validator passes exactly when every range-checked attribute is present and lies
      in [0, max). */
  lemma CheckPasses(maxes: map<string, MaxName>, sat: map<string, real>)
    ensures Check(maxes, sat) == Ok(()) <==>
      forall name :: name in maxes ==> name in sat && InRange(sat[name], maxes[name])
  {
    SortedNamesMembers(maxes.Keys);
    PassesOver(SortedNames(maxes.Keys), maxes, sat);
  }

  /** CheckPasses over any list naming exactly the bounded attributes. */
  lemma PassesOver(names: seq<string>, maxes: map<string, MaxName>, sat: map<string, real>)
    requires forall i :: 0 <= i < |names| ==> names[i] in maxes
    requires forall x :: x in maxes ==> x in names
    ensures Finish([], Examine(names, maxes, sat)) == Ok(()) <==>
      forall name :: name in maxes ==> name in sat && InRange(sat[name], maxes[name])
  {
    ExamineMeaning(names, maxes, sat);
    var r := Examine(names, maxes, sat);
    if r.Ok? {
      assert [] + r.value == r.value;
    }
    if r.Ok? && r.value == [] {
      forall name | name in maxes ensures name in sat && InRange(sat[name], maxes[name]) {
        var i :| 0 <= i < |names| && names[i] == name;
      }
    } else if r.Ok? {
      assert r.value[0] in r.value;
    } else {
      assert r.error in names;
    }
  }

  /** A missing attribute is reported only when one is missing, and it is the first
      missing one in ascending name order. */
  lemma CheckMissing(maxes: map<string, MaxName>, sat: map<string, real>)
    ensures Check(maxes, sat).Err? && Check(maxes, sat).error.MissingAttribute? <==>
      exists name :: name in maxes && name !in sat
    ensures Check(maxes, sat).Err? && Check(maxes, sat).error.MissingAttribute? ==>
      var missing := Check(maxes, sat).error.name;
      missing in maxes && missing !in sat
      && forall name :: name in maxes && LexLess(name, missing) ==> name in sat
  {
    SortedNamesMeaning(maxes.Keys);
    MissingOver(SortedNames(maxes.Keys), maxes, sat);
  }

  /** CheckMissing over any ascending list naming exactly the bounded attributes. */
  lemma MissingOver(names: seq<string>, maxes: map<string, MaxName>, sat: map<string, real>)
    requires forall i :: 0 <= i < |names| ==> names[i] in maxes
    requires forall x :: x in maxes ==> x in names
    requires StrictlySorted(names)
    ensures var c := Finish([], Examine(names, maxes, sat));
      (c.Err? && c.error.MissingAttribute? <==> exists name :: name in maxes && name !in sat)
      && (c.Err? && c.error.MissingAttribute? ==>
            c.error.name in maxes && c.error.name !in sat
            && forall name :: name in maxes && LexLess(name, c.error.name) ==> name in sat)
  {
    ExamineMissing(names, maxes, sat);
    var r := Examine(names, maxes, sat);
    if r.Err? {
      MissingIsFirst(names, maxes, sat);
      forall name | name in maxes && LexLess(name, r.error) ensures name in sat {
        var j :| 0 <= j < |names| && names[j] == name;
      }
    } else {
      forall name | name in maxes ensures name in sat {
        var i :| 0 <= i < |names| && names[i] == name;
      }
    }
  }

  /** The part of ExamineMeaning about absent names. */
  lemma ExamineMissing(names: seq<string>, maxes: map<string, MaxName>, sat: map<string, real>)
    requires forall i :: 0 <= i < |names| ==> names[i] in maxes
    ensures var r := Examine(names, maxes, sat);
      (r.Ok? <==> forall i :: 0 <= i < |names| ==> names[i] in sat)
      && (r.Err? ==> r.error in names && r.error !in sat)
  {
    ExamineMeaning(names, maxes, sat);
  }

  /** In a strictly ascending list, every name before the missing one reported is
      present. */
  lemma MissingIsFirst(names: seq<string>, maxes: map<string, MaxName>, sat: map<string, real>)
    requires forall i :: 0 <= i < |names| ==> names[i] in maxes
    requires StrictlySorted(names) && Examine(names, maxes, sat).Err?
    ensures forall j :: 0 <= j < |names| && LexLess(names[j], Examine(names, maxes, sat).error) ==>
      names[j] in sat
  {
    ExamineFirstMissing(names, maxes, sat);
    var missing := Examine(names, maxes, sat).error;
    var i :| 0 <= i < |names| && names[i] == missing && forall j :: 0 <= j < i ==> names[j] in sat;
    forall j | 0 <= j < |names| && LexLess(names[j], missing) ensures names[j] in sat {
      if j >= i {
        if j > i {
          LexTransitive(names[i], names[j], names[i]);
        }
        LexIrreflexive(names[i]);
      }
    }
  }

  /** When everything is present, the ValueError lists exactly the attributes outside
      their range, in ascending name order. */
  lemma CheckOutOfRange(maxes: map<string, MaxName>, sat: map<string, real>)
    ensures Check(maxes, sat).Err? && Check(maxes, sat).error.OutOfRange? ==>
      var vs := Check(maxes, sat).error.violations;
      (forall v :: v in vs <==> v.name in maxes && v.name in sat && v.value == sat[v.name]
                                && v.maxName == maxes[v.name] && !InRange(v.value, v.maxName))
      && NamesAscend(vs)
  {
    SortedNamesMeaning(maxes.Keys);
    OutOfRangeOver(SortedNames(maxes.Keys), maxes, sat);
  }

  /** CheckOutOfRange over any ascending list naming exactly the bounded attributes. */
  lemma OutOfRangeOver(names: seq<string>, maxes: map<string, MaxName>, sat: map<string, real>)
    requires forall i :: 0 <= i < |names| ==> names[i] in maxes
    requires forall x :: x in maxes ==> x in names
    requires StrictlySorted(names)
    ensures var c := Finish([], Examine(names, maxes, sat));
      c.Err? && c.error.OutOfRange? ==>
        (forall v :: v in c.error.violations <==>
           v.name in maxes && v.name in sat && v.value == sat[v.name]
           && v.maxName == maxes[v.name] && !InRange(v.value, v.maxName))
        && NamesAscend(c.error.violations)
  {
    var r := Examine(names, maxes, sat);
    if r.Ok? {
      assert Finish([], r) == if r.value == [] then Ok(()) else Err(OutOfRange(r.value)) by {
        assert [] + r.value == r.value;
      }
      ExamineSorted(names, maxes, sat);
      ViolationsExactly(names, maxes, sat);
    }
  }

  /** With every name present, the loop's list holds exactly the out-of-range ones. */
  lemma ViolationsExactly(names: seq<string>, maxes: map<string, MaxName>, sat: map<string, real>)
    requires forall i :: 0 <= i < |names| ==> names[i] in maxes
    requires forall x :: x in maxes ==> x in names
    ensures var r := Examine(names, maxes, sat);
      r.Ok? ==> forall v :: v in r.value <==>
        v.name in maxes && v.name in sat && v.value == sat[v.name]
        && v.maxName == maxes[v.name] && !InRange(v.value, v.maxName)
  {
    ExamineMeaning(names, maxes, sat);
    var r := Examine(names, maxes, sat);
    if r.Ok? {
      forall name | name in maxes && name in sat && !InRange(sat[name], maxes[name])
        ensures Violation(name, sat[name], maxes[name]) in r.value
      {
        var i :| 0 <= i < |names| && names[i] == name;
      }
    }
  }

  // ---------------------------------------------------------------- dump_satrec

  /** `getattr(sat, name, '(not set)')`, with None for the default. */
  function Lookup<V>(sat: map<string, V>, name: string): Option<V> {
    if name in sat then Some(sat[name]) else None
  }

  /** `repr` of an attribute value; the default text prints with its quotes. */
  function Repr<V>(value: Option<V>, show: V -> string): string {
    match value
    case None => "'(not set)'"
    case Some(v) => show(v)
  }

  /** `'{0:39}'.format(s)`: left-aligned in a field of 39 characters. */
  function PadRight(s: string, width: nat): (r: string)
    ensures |r| == if |s| < width then width else |s|
    ensures r[..|s|] == s
    ensures forall i :: |s| <= i < |r| ==> r[i] == ' '
    decreases width - |s|
  {
    if |s| < width then PadRight(s + " ", width) else s
  }

  /** The line `dump_satrec` yields for one attribute: `name = repr`, or with a second
      satellite that text padded to 39 columns, the verdict and the other value. */
  function AttributeLine<V(==)>(name: string, sat: map<string, V>, sat2: Option<map<string, V>>,
                                show: V -> string): string
  {
    var value := Lookup(sat, name);
    var text := name + " = " + Repr(value, show);
    match sat2
    case None => text + "\n"
    case Some(other) =>
      var value2 := Lookup(other, name);
      var verdict := if value == value2 then "==" else "!=";
      PadRight(text, 39) + " " + verdict + " " + Repr(value2, show) + "\n"
  }

  /** `item[0].isupper()`: a section title. */
  predicate IsTitle(item: string) {
    item != [] && IsUpper(item[0])
  }

  function TitleLines(title: string): seq<string> {
    ["\n", "# -------- " + title + " --------\n"]
  }

  /** The lines yielded for `items`, and the IndexError an empty item raises. */
  datatype Dump = Dump(lines: seq<string>, failure: Option<string>)

  /** The IndexError `name[0]` raises on an empty entry. */
  const ItemError: string := "IndexError: string index out of range"

  /** The lines one non-empty entry yields: a blank line and a header for a title, else
      the attribute's line. */
  function ItemLines<V(==)>(item: string, sat: map<string, V>, sat2: Option<map<string, V>>,
                            show: V -> string): seq<string>
    requires item != []
  {
    if IsUpper(item[0]) then TitleLines(item) else [AttributeLine(item, sat, sat2, show)]
  }

  function DumpItems<V(==)>(items: seq<string>, sat: map<string, V>, sat2: Option<map<string, V>>,
                            show: V -> string): (d: Dump)
    ensures d.failure == None || d.failure == Some(ItemError)
    decreases |items|
  {
    if items == [] then Dump([], None)
    else if items[0] == [] then Dump([], Some(ItemError))
    else
      var rest := DumpItems(items[1..], sat, sat2, show);
      Dump(ItemLines(items[0], sat, sat2, show) + rest.lines, rest.failure)
  }

  function CountTitles(items: seq<string>): nat
    decreases |items|
  {
    if items == [] then 0 else (if IsTitle(items[0]) then 1 else 0) + CountTitles(items[1..])
  }

  /** Without an empty entry the dump completes with two lines per title and one per
      attribute; an empty entry makes it fail. */
  lemma {:induction false} DumpLength<V>(items: seq<string>, sat: map<string, V>,
                                             sat2: Option<map<string, V>>, show: V -> string)
    ensures DumpItems(items, sat, sat2, show).failure.None? <==> forall i :: 0 <= i < |items| ==> items[i] != []
    ensures DumpItems(items, sat, sat2, show).failure.None? ==>
      |DumpItems(items, sat, sat2, show).lines| == |items| + CountTitles(items)
    decreases |items|
  {
    if items != [] && items[0] != [] {
      DumpLength(items[1..], sat, sat2, show);
      assert forall i :: 1 <= i < |items| ==> items[i] == items[1..][i - 1];
    }
  }

  /** A satellite compared with itself gives the same lines whatever the comparison
      target's missing attributes would be: every attribute line carries "==", and the
      text before the verdict is the one-satellite line padded to 39 columns. */
  lemma AttributeLineAgainstItself<V>(name: string, sat: map<string, V>, show: V -> string)
    ensures var single := AttributeLine(name, sat, None, show);
      AttributeLine(name, sat, Some(sat), show)
        == PadRight(single[..|single| - 1], 39) + " == " + Repr(Lookup(sat, name), show) + "\n"
  {
    var single := AttributeLine(name, sat, None, show);
    assert single[..|single| - 1] == name + " = " + Repr(Lookup(sat, name), show);
  }

  /** The verdict is "==" exactly when the two satellites agree on the attribute
      (both lacking it counts as agreeing). */
  lemma VerdictMeaning<V>(name: string, sat: map<string, V>, other: map<string, V>, show: V -> string)
    ensures var text := name + " = " + Repr(Lookup(sat, name), show);
      var line := AttributeLine(name, sat, Some(other), show);
      var at := |PadRight(text, 39)|;
      line[at..at + 4] == (if Lookup(sat, name) == Lookup(other, name) then " == " else " != ")
  {
  }

  // ---------------------------------------------------------------- the registry

  /** `_ATTRIBUTES` and `_ATTR_MAXES`, module-level state that loading fills in place. */
  class AttributeRegistry {
    var attributes: seq<string>
    var maxes: map<string, MaxName>

    constructor ()
      ensures attributes == [] && maxes == map[]
    {
      attributes, maxes := [], map[];
    }

    function State(): Registry
      reads this
    {
      Registry(attributes, maxes)
    }

    /** `_load_attributes()` over the documentation text `doc`. */
    method Load(doc: string) returns (r: Result<(), string>)
      modifies this
      ensures (State(), r.Ok?) == ReadLines(SplitLines(doc), old(State()))
      ensures r.Err? ==> r.error == LoadError
    {
      var lines := SplitLines(doc);
      for k := 0 to |lines|
        invariant ReadLines(lines[k..], State()) == ReadLines(lines, old(State()))
      {
        assert lines[k..][0] == lines[k] && lines[k..][1..] == lines[k + 1..];
        var ok := ReadOne(lines[k]);
        if !ok {
          return Err(LoadError);
        }
      }
      r := Ok(());
    }

    /** One pass of the loop over the documentation lines. */
    method ReadOne(line: string) returns (ok: bool)
      modifies this
      ensures (State(), ok) == ReadLine(line, old(State()))
    {
      ok := true;
      if EndsWith(line, "*") {
        attributes := attributes + [StripStars(line)];
      } else if StartsWith(line, FieldPrefix) {
        FieldLineSplits(line);
        var pieces := Split(line, "``");
        var name := pieces[1];
        var more, complete := FieldNames(pieces);
        attributes := attributes + [name] + more;
        if !complete {
          return false;
        }
        if Contains(line, "<") {
          maxes := maxes[name := BoundOf(line)];
        }
      }
    }

    /** `if not _ATTRIBUTES: _load_attributes()`, the opening of both `check_satrec` and
        `dump_satrec`. */
    method LoadIfEmpty(doc: string) returns (r: Result<(), string>)
      modifies this
      ensures old(attributes) != [] ==> State() == old(State()) && r.Ok?
      ensures old(attributes) == [] ==> (State(), r.Ok?) == ReadLines(SplitLines(doc), old(State()))
      ensures r.Err? ==> r.error == LoadError
    {
      r := Ok(());
      if attributes == [] {
        r := Load(doc);
      }
    }

    /** `check_satrec(sat)`: load the registry if it is still empty, then examine the
        range-checked names in ascending order. */
    method CheckSatrec(doc: string, sat: map<string, real>) returns (r: Result<(), CheckError>)
      modifies this
      ensures old(attributes) != [] ==> State() == old(State()) && r == Check(maxes, sat)
      ensures old(attributes) == [] ==>
        var load := ReadLines(SplitLines(doc), old(State()));
        State() == load.0 && r == if load.1 then Check(maxes, sat) else Err(LoadFailed(LoadError))
    {
      var loaded := LoadIfEmpty(doc);
      if loaded.Err? {
        return Err(LoadFailed(loaded.error));
      }
      r := CheckRanges(maxes, sat);
    }

    /** `dump_satrec(sat, sat2)`: load the registry if it is still empty, then the lines
        for every listed entry in order. */
    method DumpSatrec<V(==)>(doc: string, sat: map<string, V>, sat2: Option<map<string, V>>,
                             show: V -> string) returns (d: Dump)
      modifies this
      ensures old(attributes) != [] ==> State() == old(State())
      ensures old(attributes) == [] ==>
        (State(), d.failure != Some(LoadError)) == ReadLines(SplitLines(doc), old(State()))
      ensures d.failure == Some(LoadError) ==> d.lines == []
      ensures d.failure != Some(LoadError) ==> d == DumpItems(attributes, sat, sat2, show)
    {
      var loaded := LoadIfEmpty(doc);
      if loaded.Err? {
        return Dump([], Some(loaded.error));
      }
      d := DumpLines(attributes, sat, sat2, show);
      assert ItemError[12] != LoadError[12];
    }
  }

  /** The rest of the check after `done` violations were collected. */
  function Finish(done: seq<Violation>, rest: Result<seq<Violation>, string>): Result<(), CheckError> {
    match rest
    case Err(missing) => Err(MissingAttribute(missing))
    case Ok(more) => if done + more == [] then Ok(()) else Err(OutOfRange(done + more))
  }

  /** The `while pieces[i] == ', '` loop of a field line, from `i = 2`. */
  method FieldNames(pieces: seq<string>) returns (names: seq<string>, complete: bool)
    ensures Names(names, complete) == MoreNames(pieces, 2)
  {
    names := [];
    var i := 2;
    while true
      invariant 2 <= i
      invariant MoreNames(pieces, 2).names == names + MoreNames(pieces, i).names
      invariant MoreNames(pieces, 2).complete == MoreNames(pieces, i).complete
      decreases |pieces| - i
    {
      if i >= |pieces| {
        return names, false;
      }
      if pieces[i] != ", " {
        return names, true;
      }
      if i + 1 >= |pieces| {
        return names, false;
      }
      ghost var later := MoreNames(pieces, i + 2).names;
      assert MoreNames(pieces, i).names == [pieces[i + 1]] + later;
      assert names + ([pieces[i + 1]] + later) == (names + [pieces[i + 1]]) + later;
      names := names + [pieces[i + 1]];
      i := i + 2;
    }
  }

  /** `sorted(...)` over the names of a set: the least remaining name, one at a time. */
  method SortNames(keys: set<string>) returns (names: seq<string>)
    ensures names == SortedNames(keys)
  {
    names := [];
    var rest := keys;
    while rest != {}
      invariant SortedNames(keys) == names + SortedNames(rest)
      decreases |rest|
    {
      LeastExists(rest);
      var name :| IsLeast(name, rest);
      SortedNamesStep(rest, name);
      ghost var later := SortedNames(rest - {name});
      assert names + ([name] + later) == (names + [name]) + later;
      names := names + [name];
      rest := rest - {name};
    }
    assert names + [] == names;
  }

  /** The loop of `check_satrec` over `sorted(_ATTR_MAXES.items())`. */
  method CheckRanges(maxes: map<string, MaxName>, sat: map<string, real>) returns (r: Result<(), CheckError>)
    ensures r == Check(maxes, sat)
  {
    var names := SortNames(maxes.Keys);
    var violations: seq<Violation> := [];
    for k := 0 to |names|
      invariant Check(maxes, sat) == Finish(violations, Examine(names[k..], maxes, sat))
    {
      var name := names[k];
      assert names[k..][0] == name && names[k..][1..] == names[k + 1..];
      FinishStep(violations, names[k..], maxes, sat);
      if name !in sat {
        return Err(MissingAttribute(name));
      }
      var value := sat[name];
      if !InRange(value, maxes[name]) {
        violations := violations + [Violation(name, value, maxes[name])];
      }
    }
    assert violations + [] == violations;
    if violations != [] {
      return Err(OutOfRange(violations));
    }
    r := Ok(());
  }

  /** One step of the checking loop: the first name either is missing or adds its
      violation, if any, to those collected. */
  lemma FinishStep(done: seq<Violation>, names: seq<string>, maxes: map<string, MaxName>,
                   sat: map<string, real>)
    requires names != [] && forall i :: 0 <= i < |names| ==> names[i] in maxes
    ensures names[0] !in sat ==> Finish(done, Examine(names, maxes, sat)) == Err(MissingAttribute(names[0]))
    ensures names[0] in sat && InRange(sat[names[0]], maxes[names[0]]) ==>
      Finish(done, Examine(names, maxes, sat)) == Finish(done, Examine(names[1..], maxes, sat))
    ensures names[0] in sat && !InRange(sat[names[0]], maxes[names[0]]) ==>
      Finish(done, Examine(names, maxes, sat))
        == Finish(done + [Violation(names[0], sat[names[0]], maxes[names[0]])], Examine(names[1..], maxes, sat))
  {
    var n := names[0];
    if n in sat && !InRange(sat[n], maxes[n]) {
      var v := Violation(n, sat[n], maxes[n]);
      match Examine(names[1..], maxes, sat)
      case Err(_) =>
      case Ok(more) =>
        assert done + ([v] + more) == (done + [v]) + more;
    } else if n in sat {
      match Examine(names[1..], maxes, sat)
      case Err(_) =>
      case Ok(more) =>
        assert [] + more == more;
    }
  }

  /** The loop of `dump_satrec` over `_ATTRIBUTES`. */
  method DumpLines<V(==)>(items: seq<string>, sat: map<string, V>, sat2: Option<map<string, V>>,
                          show: V -> string) returns (d: Dump)
    ensures d == DumpItems(items, sat, sat2, show)
  {
    ghost var whole := DumpItems(items, sat, sat2, show);
    var lines: seq<string> := [];
    for k := 0 to |items|
      invariant whole.lines == lines + DumpItems(items[k..], sat, sat2, show).lines
      invariant whole.failure == DumpItems(items[k..], sat, sat2, show).failure
    {
      var item := items[k];
      DumpItemsAt(items, k, lines, sat, sat2, show);
      if item == [] {
        return Dump(lines, Some(ItemError));
      }
      lines := lines + ItemLines(item, sat, sat2, show);
    }
    assert items[|items|..] == [];
    assert lines + [] == lines;
    d := Dump(lines, None);
  }

  /** One step of DumpItems, at position `k`, after the lines `done`. */
  lemma DumpItemsAt<V>(items: seq<string>, k: nat, done: seq<string>, sat: map<string, V>,
                       sat2: Option<map<string, V>>, show: V -> string)
    requires k < |items|
    ensures items[k] == [] ==>
      done + DumpItems(items[k..], sat, sat2, show).lines == done
      && DumpItems(items[k..], sat, sat2, show).failure == Some(ItemError)
    ensures items[k] != [] ==>
      done + DumpItems(items[k..], sat, sat2, show).lines
        == (done + ItemLines(items[k], sat, sat2, show)) + DumpItems(items[k + 1..], sat, sat2, show).lines
    ensures items[k] != [] ==>
      DumpItems(items[k..], sat, sat2, show).failure == DumpItems(items[k + 1..], sat, sat2, show).failure
  {
    assert items[k..][0] == items[k] && items[k..][1..] == items[k + 1..];
    if items[k] == [] {
      assert done + [] == done;
    } else {
      var here := ItemLines(items[k], sat, sat2, show);
      var rest := DumpItems(items[k + 1..], sat, sat2, show).lines;
      assert done + (here + rest) == (done + here) + rest;
    }
  }
}
