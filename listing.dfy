/** The `list` command: keep the instances whose Name tag matches the
    pattern, turn each into a row, sort the rows by the column `--sort`
    names (if it names one), and keep the first `--limit` rows. */
module Listing {
  import opened Fleet
  import opened Colour
  import opened StringOrder

  /** A table row: ID, Name, Type, Private IP, Public IP, Status. */
  datatype Row = Row(id: Cell, name: Cell, instanceType: Cell, privateIp: Cell, publicIp: Cell, status: Cell)
  {
    /** `row[c]` */
    function At(c: Column): Cell
    {
      match c
      case 0 => id
      case 1 => name
      case 2 => instanceType
      case 3 => privateIp
      case 4 => publicIp
      case _ => status
    }
  }

  type Column = c: nat | c < 6

  /** `row[c].to_s`, the sort key. */
  function Key(r: Row, c: Column): (k: string)
  {
    CellText(r.At(c))
  }

  /** What each kind of cell sorts by. */
  lemma KeyOfCell(r: Row, c: Column)
    ensures r.At(c).Str? ==> Key(r, c) == r.At(c).s
    ensures r.At(c).Nil? ==> Key(r, c) == ""
    ensures r.At(c).Sym? ==> Key(r, c) == StatusName(r.At(c).status)
    ensures r.At(c).Painted? ==> Key(r, c) == Sgr(r.At(c).colour) + r.At(c).text + Reset
  {
  }

  /** `instance.tags["Name"].to_s`: a missing tag reads as the empty string. */
  function NameText(inst: Instance): (s: string)
    ensures "Name" in inst.tags ==> s == inst.tags["Name"]
    ensures "Name" !in inst.tags ==> s == ""
  {
    if "Name" in inst.tags then inst.tags["Name"] else ""
  }

  /** `list` reads a missing Name tag as "", `find_instance_by_name` never
      matches it: the two readings agree on every name except the empty one. */
  lemma TaggedAsAgreesWithNameText(inst: Instance, name: string)
    ensures TaggedAs(inst, name) ==> NameText(inst) == name
    ensures name != "" ==> (TaggedAs(inst, name) <==> NameText(inst) == name)
    ensures "Name" !in inst.tags ==> NameText(inst) == "" && !TaggedAs(inst, "")
  {
  }

  /** Whether `list` keeps an instance: the pattern is empty or the Name
      text matches it. `matches` stands for Ruby's `String#match`. */
  predicate Kept(inst: Instance, pattern: string, matches: (string, string) -> bool): (b: bool)
    ensures pattern == "" ==> b
    ensures pattern != "" && "Name" in inst.tags ==> (b <==> matches(inst.tags["Name"], pattern))
    ensures pattern != "" && "Name" !in inst.tags ==> (b <==> matches("", pattern))
  {
    pattern == "" || matches(NameText(inst), pattern)
  }

  /** The row of one instance. Its sort keys are the id, the Name text, the
      type, the IPs (empty when nil) and the status name; with colour on, the
      status cell is the painted name instead. */
  function RowOf(inst: Instance, color: bool): (r: Row)
    ensures Key(r, 0) == inst.id && Key(r, 1) == NameText(inst) && Key(r, 2) == inst.instanceType
    ensures Key(r, 3) == (if inst.privateIp.Some? then inst.privateIp.value else "")
    ensures Key(r, 4) == (if inst.publicIp.Some? then inst.publicIp.value else "")
    ensures !color ==> Key(r, 5) == StatusName(inst.status)
    ensures color ==> r.status == Painted(StatusName(inst.status), ColourOf(inst.status))
  {
    Row(Str(inst.id), Str(NameText(inst)), Str(inst.instanceType),
        OptionCell(inst.privateIp), OptionCell(inst.publicIp), StatusColorize(inst.status, color))
  }

  /** With colour on, the status sort key is the painted name, so `--sort status`
      orders two instances of different colours by their colour codes and not
      by their state names. */
  lemma PaintedStatusOrder(a: Instance, b: Instance)
    requires ColourOf(a.status) != ColourOf(b.status)
    ensures LexLe(Key(RowOf(a, true), 5), Key(RowOf(b, true), 5)) <==>
            LexLe(ForegroundCode(ColourOf(a.status)), ForegroundCode(ColourOf(b.status)))
  {
    var ca, cb := ForegroundCode(ColourOf(a.status)), ForegroundCode(ColourOf(b.status));
    var ra := PaintedKey(a);
    var rb := PaintedKey(b);
    LexLeCommonPrefix("\U{1b}[0;", ca + ra, cb + rb);
    LexLeDifferingPrefix(ca, cb, ra, rb);
  }

  /** The painted status key: the fixed start, the colour code, then the rest. */
  lemma PaintedKey(inst: Instance) returns (rest: string)
    ensures Key(RowOf(inst, true), 5) == "\U{1b}[0;" + (ForegroundCode(ColourOf(inst.status)) + rest)
  {
    var cell := RowOf(inst, true).status;
    assert cell == Painted(StatusName(inst.status), ColourOf(inst.status));
    assert Key(RowOf(inst, true), 5) == CellText(cell);
    rest := Regroup("\U{1b}[0;", ForegroundCode(ColourOf(inst.status)), ";49m", StatusName(inst.status), Reset);
  }

  lemma Regroup(a: string, b: string, c: string, d: string, e: string) returns (rest: string)
    ensures rest == c + d + e
    ensures a + b + c + d + e == a + (b + rest)
  {
    rest := c + d + e;
  }

  /** A running instance is listed before a pending one under `--sort status`
      with colour on (code 32 before 35), though "pending" comes before "running". */
  lemma RunningSortsBeforePending(a: Instance, b: Instance)
    requires a.status == Running && b.status == Pending
    ensures LexLe(Key(RowOf(a, true), 5), Key(RowOf(b, true), 5))
    ensures !LexLe(Key(RowOf(b, true), 5), Key(RowOf(a, true), 5))
    ensures LexLe(StatusName(b.status), StatusName(a.status))
  {
    PaintedStatusOrder(a, b);
    PaintedStatusOrder(b, a);
  }

  /** The rows the loop of `list` collects, in fleet order: at most one per
      instance, and one for every instance when the pattern is empty. */
  function Rows(fleet: seq<Instance>, pattern: string, matches: (string, string) -> bool, color: bool): (rows: seq<Row>)
    ensures |rows| <= |fleet|
    ensures pattern == "" ==> |rows| == |fleet|
  {
    if |fleet| == 0 then []
    else
      var last := fleet[|fleet| - 1];
      Rows(fleet[..|fleet| - 1], pattern, matches, color) + (if Kept(last, pattern, matches) then [RowOf(last, color)] else [])
  }

  /** Filtering distributes over concatenation, so it keeps fleet order. */
  lemma {:induction false} RowsAppend(a: seq<Instance>, b: seq<Instance>, pattern: string,
                                      matches: (string, string) -> bool, color: bool)
    ensures Rows(a + b, pattern, matches, color) == Rows(a, pattern, matches, color) + Rows(b, pattern, matches, color)
    decreases |b|
  {
    if |b| > 0 {
      var b' := b[..|b| - 1];
      assert (a + b)[..|a + b| - 1] == a + b';
      assert (a + b)[|a + b| - 1] == b[|b| - 1];
      RowsAppend(a, b', pattern, matches, color);
      var tail := if Kept(b[|b| - 1], pattern, matches) then [RowOf(b[|b| - 1], color)] else [];
      assert Rows(a + b, pattern, matches, color) == Rows(a + b', pattern, matches, color) + tail;
      assert Rows(b, pattern, matches, color) == Rows(b', pattern, matches, color) + tail;
    } else {
      assert a + b == a;
    }
  }

  /** A row is listed exactly when it is the row of a kept instance. */
  lemma {:induction false} RowsExactlyKept(fleet: seq<Instance>, pattern: string,
                                           matches: (string, string) -> bool, color: bool, r: Row)
    ensures r in Rows(fleet, pattern, matches, color) <==>
            exists i :: 0 <= i < |fleet| && Kept(fleet[i], pattern, matches) && r == RowOf(fleet[i], color)
    ensures |Rows(fleet, pattern, matches, color)| <= |fleet|
  {
    if r in Rows(fleet, pattern, matches, color) {
      ListedRowKept(fleet, pattern, matches, color, r);
    }
    if exists i :: 0 <= i < |fleet| && Kept(fleet[i], pattern, matches) && r == RowOf(fleet[i], color) {
      var i :| 0 <= i < |fleet| && Kept(fleet[i], pattern, matches) && r == RowOf(fleet[i], color);
      KeptRowListed(fleet, pattern, matches, color, i);
    }
  }

  /** Every listed row comes from a kept instance. */
  lemma {:induction false} ListedRowKept(fleet: seq<Instance>, pattern: string,
                                         matches: (string, string) -> bool, color: bool, r: Row)
    requires r in Rows(fleet, pattern, matches, color)
    ensures exists i :: 0 <= i < |fleet| && Kept(fleet[i], pattern, matches) && r == RowOf(fleet[i], color)
  {
    var init, last := fleet[..|fleet| - 1], fleet[|fleet| - 1];
    if r in Rows(init, pattern, matches, color) {
      ListedRowKept(init, pattern, matches, color, r);
      var i :| 0 <= i < |init| && Kept(init[i], pattern, matches) && r == RowOf(init[i], color);
      assert fleet[i] == init[i];
    } else {
      assert Kept(last, pattern, matches) && r == RowOf(last, color);
    }
  }

  /** Every kept instance gives a listed row. */
  lemma {:induction false} KeptRowListed(fleet: seq<Instance>, pattern: string,
                                         matches: (string, string) -> bool, color: bool, i: nat)
    requires i < |fleet| && Kept(fleet[i], pattern, matches)
    ensures RowOf(fleet[i], color) in Rows(fleet, pattern, matches, color)
  {
    var init := fleet[..|fleet| - 1];
    if i < |init| {
      KeptRowListed(init, pattern, matches, color, i);
      assert init[i] == fleet[i];
    }
  }

  // ----- choosing the sort column -----

  /** What `--sort` is tested against, in the order of the `case`. */
  const SortPatterns: seq<string> := ["id", "name", "type", "private", "public", "status"]

  /** The default of `--sort`: `name` in the class body is the class's name. */
  const DefaultSort: string := "Ec2ctl::CLI"

  function LowerChar(c: char): char
  {
    if 'A' <= c <= 'Z' then (c as int + 32) as char else c
  }

  function Lower(s: string): (t: string)
    ensures |t| == |s|
  {
    seq(|s|, i requires 0 <= i < |s| => LowerChar(s[i]))
  }

  /** `w` (in lower case) occurs at position `i` of `s`, ignoring ASCII case. */
  predicate OccursAt(s: string, w: string, i: nat)
  {
    i + |w| <= |s| && Lower(s[i..i + |w|]) == w
  }

  /** `s =~ /w/i` for a literal word `w` written in lower case. */
  predicate Occurs(s: string, w: string)
    decreases |s|
  {
    |w| <= |s| && (Lower(s[..|w|]) == w || Occurs(s[1..], w))
  }

  lemma {:induction false} OccursSpec(s: string, w: string)
    ensures Occurs(s, w) <==> exists i: nat :: OccursAt(s, w, i)
    decreases |s|
  {
    if |w| <= |s| && |s| == 0 {
      assert OccursAt(s, w, 0);
    } else if |w| <= |s| {
      assert OccursAt(s, w, 0) <==> Lower(s[..|w|]) == w;
      OccursSpec(s[1..], w);
      forall i: nat | i + |w| <= |s| - 1
        ensures OccursAt(s[1..], w, i) <==> OccursAt(s, w, i + 1)
      {
        assert s[1..][i..i + |w|] == s[i + 1..i + 1 + |w|];
      }
      if Occurs(s, w) && Lower(s[..|w|]) != w {
        var i: nat :| OccursAt(s[1..], w, i);
        assert OccursAt(s, w, i + 1);
      }
      if !Occurs(s, w) {
        forall i: nat ensures !OccursAt(s, w, i) {
          if i > 0 && i + |w| <= |s| {
            assert !OccursAt(s[1..], w, i - 1);
          }
        }
      }
    } else {
      forall i: nat ensures !OccursAt(s, w, i) { }
    }
  }

  /** The index of the first pattern that `s` matches, if any. */
  function FirstMatch(s: string, patterns: seq<string>): (k: Option<nat>)
    ensures k.Some? ==> k.value < |patterns| && Occurs(s, patterns[k.value]) &&
                        forall j :: 0 <= j < k.value ==> !Occurs(s, patterns[j])
    ensures k.None? ==> forall j :: 0 <= j < |patterns| ==> !Occurs(s, patterns[j])
  {
    if |patterns| == 0 then None
    else if Occurs(s, patterns[0]) then Some(0)
    else
      match FirstMatch(s, patterns[1..])
      case None => None
      case Some(k) => Some(k + 1)
  }

  /** The `case options[:sort]` of `list`: the column of the first pattern
      that `--sort` matches, and no column when it matches none. */
  function SortColumn(sort: string): (c: Option<Column>)
    ensures c.Some? ==> Occurs(sort, SortPatterns[c.value]) &&
                        forall j :: 0 <= j < c.value ==> !Occurs(sort, SortPatterns[j])
    ensures c.None? <==> forall j :: 0 <= j < |SortPatterns| ==> !Occurs(sort, SortPatterns[j])
  {
    match FirstMatch(sort, SortPatterns)
    case None => None
    case Some(k) => Some(k)
  }

  /** With the default `--sort` no pattern matches, so `list` does not sort. */
  lemma DefaultSortHasNoColumn()
    ensures SortColumn(DefaultSort) == None
  {
    var lowered := "ec2ctl::cli";
    assert forall j :: 0 <= j < |DefaultSort| ==> LowerChar(DefaultSort[j]) == lowered[j];
    NoPatternOccurs(DefaultSort, lowered, SortPatterns, "dnypps");
  }

  /** Each pattern holding a letter missing from `s` (in lower case) does not occur in it. */
  lemma NoPatternOccurs(s: string, lowered: string, patterns: seq<string>, letters: string)
    requires |lowered| == |s| && forall j :: 0 <= j < |s| ==> LowerChar(s[j]) == lowered[j]
    requires |letters| == |patterns|
    requires forall k :: 0 <= k < |patterns| ==> letters[k] in patterns[k] && letters[k] !in lowered
    ensures forall k :: 0 <= k < |patterns| ==> !Occurs(s, patterns[k])
  {
    forall k | 0 <= k < |patterns| ensures !Occurs(s, patterns[k]) {
      NoOccurrence(s, lowered, patterns[k], letters[k]);
    }
  }

  /** A word holding a letter that `s`, in lower case, lacks does not occur in it. */
  lemma NoOccurrence(s: string, lowered: string, w: string, c: char)
    requires |lowered| == |s| && forall j :: 0 <= j < |s| ==> LowerChar(s[j]) == lowered[j]
    requires c in w && c !in lowered
    ensures !Occurs(s, w)
  {
    OccursSpec(s, w);
    var m :| 0 <= m < |w| && w[m] == c;
    forall i: nat ensures !OccursAt(s, w, i) {
      if i + |w| <= |s| {
        assert Lower(s[i..i + |w|])[m] == lowered[i + m];
      }
    }
  }

  // ----- sorting -----

  /** Nondecreasing by the string form of column `c`. */
  predicate SortedOn(rows: seq<Row>, c: Column)
  {
    forall i, j :: 0 <= i < j < |rows| ==> LexLe(Key(rows[i], c), Key(rows[j], c))
  }

  /** Inserts `x` into sorted `rows` before the first row whose key is not below x's. */
  method Insert(rows: seq<Row>, x: Row, c: Column) returns (res: seq<Row>)
    requires SortedOn(rows, c)
    ensures SortedOn(res, c)
    ensures multiset(res) == multiset(rows) + multiset{x}
  {
    var i := 0;
    while i < |rows| && !LexLe(Key(x, c), Key(rows[i], c))
      invariant 0 <= i <= |rows|
      invariant forall k :: 0 <= k < i ==> LexLe(Key(rows[k], c), Key(x, c))
    {
      LexLeTotal(Key(x, c), Key(rows[i], c));
      i := i + 1;
    }
    res := rows[..i] + [x] + rows[i..];
    InsertedAt(rows, x, i, c);
    assert rows == rows[..i] + rows[i..];
  }

  /** Placing `x` at a position where everything before is not above it and
      the next row is not below it keeps the rows sorted. */
  lemma InsertedAt(rows: seq<Row>, x: Row, i: nat, c: Column)
    requires SortedOn(rows, c) && i <= |rows|
    requires forall k :: 0 <= k < i ==> LexLe(Key(rows[k], c), Key(x, c))
    requires i < |rows| ==> LexLe(Key(x, c), Key(rows[i], c))
    ensures SortedOn(rows[..i] + [x] + rows[i..], c)
  {
    var res := rows[..i] + [x] + rows[i..];
    assert forall k :: 0 <= k < i ==> res[k] == rows[k];
    assert res[i] == x;
    assert forall k :: i < k < |res| ==> res[k] == rows[k - 1];
    forall p, q | 0 <= p < q < |res| ensures LexLe(Key(res[p], c), Key(res[q], c)) {
      if p == i {
        // x against a later row; rows[i] is the first row not below x
        if q - 1 > i {
          LexLeTransitive(Key(x, c), Key(rows[i], c), Key(rows[q - 1], c));
        }
      } else if q != i {
        // two rows of `rows`, in their original order
        var p0 := if p < i then p else p - 1;
        var q0 := if q < i then q else q - 1;
        assert res[p] == rows[p0] && res[q] == rows[q0] && p0 < q0;
      }
    }
  }

  /** `rows.sort_by! {|row| row[c].to_s}`: a permutation of the rows,
      nondecreasing by column `c`. No stability is promised. */
  method SortRows(rows: seq<Row>, c: Column) returns (sorted: seq<Row>)
    ensures SortedOn(sorted, c)
    ensures multiset(sorted) == multiset(rows)
  {
    sorted := [];
    var i := 0;
    while i < |rows|
      invariant 0 <= i <= |rows|
      invariant SortedOn(sorted, c)
      invariant multiset(sorted) == multiset(rows[..i])
    {
      sorted := Insert(sorted, rows[i], c);
      assert rows[..i + 1] == rows[..i] + [rows[i]];
      i := i + 1;
    }
    assert rows[..i] == rows;
  }

  /** `sort_by!` is not stable, but whichever permutation it picks, the
      column's keys come out the same: only rows with equal keys may differ. */
  lemma {:induction false} SortedKeysAreDetermined(s: seq<Row>, t: seq<Row>, c: Column)
    requires SortedOn(s, c) && SortedOn(t, c) && multiset(s) == multiset(t)
    ensures |s| == |t|
    ensures forall i :: 0 <= i < |s| ==> Key(s[i], c) == Key(t[i], c)
  {
    assert |s| == |multiset(s)| == |multiset(t)| == |t|;
    if |s| > 0 {
      assert s[0] in multiset(t);
      var j :| 0 <= j < |t| && t[j] == s[0];
      HeadKeysAgree(s, t, c);
      SameKeyUpTo(t, j, c);
      var t' := RemovedAt(t, j, c);
      var rest := SortedTail(s, c);
      SortedKeysAreDetermined(rest, t', c);
      forall p | 1 <= p < |s| ensures Key(s[p], c) == Key(t[p], c) {
        assert s[p] == rest[p - 1];
        assert Key(rest[p - 1], c) == Key(t'[p - 1], c);
      }
    }
  }

  /** Dropping the first row of a sorted sequence leaves it sorted. */
  lemma SortedTail(s: seq<Row>, c: Column) returns (rest: seq<Row>)
    requires SortedOn(s, c) && |s| > 0
    ensures rest == s[1..] && SortedOn(rest, c)
    ensures multiset(rest) == multiset(s) - multiset{s[0]}
  {
    rest := s[1..];
    assert s == [s[0]] + rest;
    forall p, q | 0 <= p < q < |rest| ensures LexLe(Key(rest[p], c), Key(rest[q], c)) {
      assert rest[p] == s[p + 1] && rest[q] == s[q + 1];
    }
  }

  /** Two sorted permutations of each other start with the same key. */
  lemma HeadKeysAgree(s: seq<Row>, t: seq<Row>, c: Column)
    requires SortedOn(s, c) && SortedOn(t, c) && multiset(s) == multiset(t) && |s| > 0
    ensures |t| > 0 && Key(s[0], c) == Key(t[0], c)
  {
    assert s[0] in multiset(t) && t[0] in multiset(s);
    var j :| 0 <= j < |t| && t[j] == s[0];
    var i :| 0 <= i < |s| && s[i] == t[0];
    LexLeReflexive(Key(s[0], c));
    assert LexLe(Key(s[0], c), Key(t[0], c));
    assert LexLe(Key(t[0], c), Key(s[0], c));
    LexLeAntisymmetric(Key(s[0], c), Key(t[0], c));
  }

  /** In a sorted sequence, a row with the first row's key has that key all the way back. */
  lemma SameKeyUpTo(t: seq<Row>, j: nat, c: Column)
    requires SortedOn(t, c) && j < |t| && Key(t[j], c) == Key(t[0], c)
    ensures forall q :: 0 <= q <= j ==> Key(t[q], c) == Key(t[0], c)
  {
    forall q | 0 < q < j ensures Key(t[q], c) == Key(t[0], c) {
      assert LexLe(Key(t[0], c), Key(t[q], c)) && LexLe(Key(t[q], c), Key(t[j], c));
      LexLeAntisymmetric(Key(t[0], c), Key(t[q], c));
    }
  }

  /** Removing the row at `j` from a sorted sequence whose first j + 1 rows share
      a key leaves it sorted, and every later position holds the key of the
      position one further in the original. */
  lemma RemovedAt(t: seq<Row>, j: nat, c: Column) returns (t': seq<Row>)
    requires SortedOn(t, c) && j < |t|
    requires forall q :: 0 <= q <= j ==> Key(t[q], c) == Key(t[0], c)
    ensures t' == t[..j] + t[j + 1..]
    ensures multiset(t') == multiset(t) - multiset{t[j]}
    ensures SortedOn(t', c)
    ensures forall p :: 0 <= p < |t'| ==> Key(t'[p], c) == Key(t[p + 1], c)
  {
    t' := t[..j] + t[j + 1..];
    assert t == t[..j] + [t[j]] + t[j + 1..];
    RemovalKeepsSorted(t, j, c);
    forall p | 0 <= p < |t'| ensures Key(t'[p], c) == Key(t[p + 1], c) {
      if p < j {
        assert t'[p] == t[p];
      } else {
        assert t'[p] == t[p + 1];
      }
    }
  }

  /** Removing one row keeps the rows sorted. */
  lemma RemovalKeepsSorted(t: seq<Row>, j: nat, c: Column)
    requires SortedOn(t, c) && j < |t|
    ensures SortedOn(t[..j] + t[j + 1..], c)
  {
    var t' := t[..j] + t[j + 1..];
    forall p, q | 0 <= p < q < |t'| ensures LexLe(Key(t'[p], c), Key(t'[q], c)) {
      var p0 := if p < j then p else p + 1;
      var q0 := if q < j then q else q + 1;
      assert t'[p] == t[p0] && t'[q] == t[q0] && p0 < q0;
    }
  }

  // ----- the limit -----

  function Min(a: int, b: int): int
  {
    if a <= b then a else b
  }

  /** `rows[0, n]` when a limit is given: nil for a negative n, otherwise
      the first min(n, |rows|) rows. */
  function Take(rows: seq<Row>, limit: Option<int>): (r: Option<seq<Row>>)
    ensures r.None? <==> limit.Some? && limit.value < 0
    ensures r.Some? ==> r.value <= rows
    ensures r.Some? ==> |r.value| == if limit.None? then |rows| else Min(limit.value, |rows|)
  {
    match limit
    case None => Some(rows)
    case Some(n) => if n < 0 then None else Some(rows[..Min(n, |rows|)])
  }

  /** The rows before the limit: unchanged when there is no column,
      otherwise a permutation sorted on it. */
  predicate Arranged(s: seq<Row>, all: seq<Row>, col: Option<Column>)
  {
    if col.None? then s == all else SortedOn(s, col.value) && multiset(s) == multiset(all)
  }

  /** The loop of `list`: one row per kept instance, in fleet order. */
  method CollectRows(fleet: seq<Instance>, pattern: string, matches: (string, string) -> bool, color: bool)
    returns (rows: seq<Row>)
    ensures rows == Rows(fleet, pattern, matches, color)
  {
    rows := [];
    var i := 0;
    while i < |fleet|
      invariant 0 <= i <= |fleet|
      invariant rows == Rows(fleet[..i], pattern, matches, color)
    {
      var inst := fleet[i];
      assert fleet[..i + 1][..i] == fleet[..i];
      i := i + 1;
      if pattern != "" && !matches(NameText(inst), pattern) {
        continue;
      }
      rows := rows + [RowOf(inst, color)];
    }
    assert fleet[..i] == fleet;
  }

  /** What the limit keeps of arranged rows. */
  lemma TakeArranged(s: seq<Row>, all: seq<Row>, col: Option<Column>, limit: Option<int>)
    requires Arranged(s, all, col) && Take(s, limit).Some?
    ensures multiset(Take(s, limit).value) <= multiset(all)
    ensures |Take(s, limit).value| == if limit.None? then |all| else Min(limit.value, |all|)
    ensures col.Some? ==> SortedOn(Take(s, limit).value, col.value)
    ensures col.None? ==> Take(s, limit).value <= all
  {
    var out := Take(s, limit).value;
    assert |s| == |multiset(s)| == |multiset(all)| == |all|;
    assert s == out + s[|out|..];
    assert multiset(s) == multiset(out) + multiset(s[|out|..]);
  }

  /** The `list` command, from the fleet snapshot to the rows of the table. */
  method List(fleet: seq<Instance>, pattern: string, matches: (string, string) -> bool,
              sort: string, limit: Option<int>, color: bool) returns (r: Result<seq<Row>>)
    ensures r.Err? <==> limit.Some? && limit.value < 0
    ensures r.Err? ==> r.error == NilRows
    ensures r.Ok? ==> exists s :: Arranged(s, Rows(fleet, pattern, matches, color), SortColumn(sort)) &&
                                  Take(s, limit) == Some(r.value)
    ensures r.Ok? ==> multiset(r.value) <= multiset(Rows(fleet, pattern, matches, color))
    ensures r.Ok? ==> |r.value| == if limit.None? then |Rows(fleet, pattern, matches, color)|
                                   else Min(limit.value, |Rows(fleet, pattern, matches, color)|)
    ensures r.Ok? && SortColumn(sort).Some? ==> SortedOn(r.value, SortColumn(sort).value)
    ensures r.Ok? && SortColumn(sort).None? ==> r.value <= Rows(fleet, pattern, matches, color)
  {
    var rows := CollectRows(fleet, pattern, matches, color);
    ghost var all := rows;
    var col := SortColumn(sort);
    if col.Some? {
      rows := SortRows(rows, col.value);
    }
    assert Arranged(rows, all, col);
    var taken := Take(rows, limit);
    if taken.None? {
      return Err(NilRows);
    }
    TakeArranged(rows, all, col, limit);
    r := Ok(taken.value);
  }
}
