/**
 `ListTasks`: one fixed-format line per map entry, written in Go's unspecified
 map iteration order. The RFC 3339 rendering of a timestamp (`time.RFC3339`)
 is passed in as a function; the `kind` argument is accepted and ignored.
 */
module Listing {
  import opened Wrappers
  import opened TaskStore
  import Decimal

  /** The text before the first ',' (all of it when there is none). */
  function UpToComma(s: string): (r: string)
    ensures ',' !in r
  {
    if s == [] || s[0] == ',' then [] else [s[0]] + UpToComma(s[1..])
  }

  lemma {:induction false} UpToCommaPrefix(a: string, b: string)
    requires ',' !in a
    requires |b| > 0 && b[0] == ','
    ensures UpToComma(a + b) == a
  {
    if a != [] {
      assert (a + b)[1..] == a[1..] + b;
      UpToCommaPrefix(a[1..], b);
    }
  }

  /** Reads the ID back from the head of a listing line. */
  function LineId(l: string): Option<int> {
    if |l| >= 4 && l[..4] == "ID: " then Decimal.ParseInt(UpToComma(l[4..])) else None
  }

  /** The printed ID stops at the first ',' of the line. */
  lemma IdTextHasNoComma(id: Id)
    ensures ',' !in Decimal.IntToString(id)
  {
  }

  /** The part of a line after the ID: `, Description: <d>, Status: <s>, CreatedAt: <ts>` and a newline. */
  function LineTail(t: Task, rfc3339: Timestamp -> string): (r: string)
    ensures |r| > 0 && r[0] == ',' && r[|r| - 1] == '\n'
  {
    ", Description: " + t.description + ", Status: " + t.status + ", CreatedAt: " + rfc3339(t.createdate) + "\n"
  }

  /**
   The line written for one entry: it begins with `ID: ` and the entry's ID,
   which can be read back, and ends with a newline.
   */
  function Line(id: Id, t: Task, rfc3339: Timestamp -> string): (l: string)
    ensures |l| > 4 && l[..4] == "ID: " && l[|l| - 1] == '\n'
    ensures LineId(l) == Some(id)
  {
    var digits := Decimal.IntToString(id);
    var tail := LineTail(t, rfc3339);
    var l := "ID: " + digits + tail;
    assert l[4..] == digits + tail;
    IdTextHasNoComma(id);
    UpToCommaPrefix(digits, tail);
    Decimal.IntToStringRoundTrip(id);
    l
  }

  /** `order` lists every key of `t` exactly once. */
  predicate IsEnumeration(order: seq<Id>, t: Tasks) {
    && (forall i :: 0 <= i < |order| ==> order[i] in t)
    && (forall id :: id in t ==> id in order)
    && (forall i, j :: 0 <= i < j < |order| ==> order[i] != order[j])
  }

  /** The lines for the entries, in the given key order. */
  function Lines(t: Tasks, order: seq<Id>, rfc3339: Timestamp -> string): seq<string>
    requires forall i :: 0 <= i < |order| ==> order[i] in t
  {
    seq(|order|, i requires 0 <= i < |order| => Line(order[i], t[order[i]], rfc3339))
  }

  function Concat(lines: seq<string>): string {
    if lines == [] then "" else Concat(lines[..|lines| - 1]) + lines[|lines| - 1]
  }

  /**
   The writer receives the lines of some enumeration of the keys, one after
   another; which enumeration is not fixed, and `kind` plays no part.
   */
  method ListTasks(t: Tasks, kind: string, rfc3339: Timestamp -> string) returns (order: seq<Id>, out: string)
    ensures IsEnumeration(order, t)
    ensures |order| == |t|
    ensures out == Concat(Lines(t, order, rfc3339))
  {
    order := [];
    out := "";
    var rest := t.Keys;
    while rest != {}
      invariant rest <= t.Keys
      invariant forall i :: 0 <= i < |order| ==> order[i] in t && order[i] !in rest
      invariant forall id :: id in t ==> id in rest || id in order
      invariant forall i, j :: 0 <= i < j < |order| ==> order[i] != order[j]
      invariant |order| + |rest| == |t|
      invariant out == Concat(Lines(t, order, rfc3339))
      decreases rest
    {
      var id :| id in rest;
      var line := Line(id, t[id], rfc3339);
      LinesSnoc(t, order, id, rfc3339);
      ConcatSnoc(Lines(t, order, rfc3339), line);
      order := order + [id];
      out := out + line;
      rest := rest - {id};
    }
  }

  lemma LinesSnoc(t: Tasks, order: seq<Id>, id: Id, rfc3339: Timestamp -> string)
    requires forall i :: 0 <= i < |order| ==> order[i] in t
    requires id in t
    ensures Lines(t, order + [id], rfc3339) == Lines(t, order, rfc3339) + [Line(id, t[id], rfc3339)]
  {
  }

  lemma ConcatSnoc(lines: seq<string>, line: string)
    ensures Concat(lines + [line]) == Concat(lines) + line
  {
    assert (lines + [line])[..|lines|] == lines;
  }

  /** Distinct entries produce distinct lines, so each entry has exactly one line. */
  lemma LinesDistinct(t: Tasks, order: seq<Id>, rfc3339: Timestamp -> string)
    requires IsEnumeration(order, t)
    ensures forall i, j :: 0 <= i < j < |order| ==> Lines(t, order, rfc3339)[i] != Lines(t, order, rfc3339)[j]
  {
  }

  // ---------------------------------------------------------------------------
  // The output is fixed up to order

  /** In a sequence without repeats every element occurs once. */
  lemma {:induction false} DistinctCount<T>(xs: seq<T>, x: T)
    requires forall i, j :: 0 <= i < j < |xs| ==> xs[i] != xs[j]
    ensures multiset(xs)[x] == if x in xs then 1 else 0
    decreases |xs|
  {
    if xs != [] {
      var init := xs[..|xs| - 1];
      assert xs == init + [xs[|xs| - 1]];
      DistinctCount(init, x);
      assert x in xs <==> x in init || x == xs[|xs| - 1];
    }
  }

  lemma ListedLineHasEntry(t: Tasks, order: seq<Id>, rfc3339: Timestamp -> string, k: nat)
    requires IsEnumeration(order, t)
    requires k < |order|
    ensures order[k] in t && Lines(t, order, rfc3339)[k] == Line(order[k], t[order[k]], rfc3339)
  {
  }

  lemma EntryHasListedLine(t: Tasks, order: seq<Id>, rfc3339: Timestamp -> string, id: Id)
    requires IsEnumeration(order, t)
    requires id in t
    ensures Line(id, t[id], rfc3339) in Lines(t, order, rfc3339)
  {
    assert id in order;
    var k :| 0 <= k < |order| && order[k] == id;
    assert Lines(t, order, rfc3339)[k] == Line(id, t[id], rfc3339);
  }

  /** A line occurs in a listing exactly when some entry of the map renders to it. */
  lemma InListing(t: Tasks, order: seq<Id>, rfc3339: Timestamp -> string, line: string)
    requires IsEnumeration(order, t)
    ensures line in Lines(t, order, rfc3339) <==> exists id :: id in t && line == Line(id, t[id], rfc3339)
  {
    var ls := Lines(t, order, rfc3339);
    if line in ls {
      var k :| 0 <= k < |ls| && ls[k] == line;
      ListedLineHasEntry(t, order, rfc3339, k);
    }
    if id :| id in t && line == Line(id, t[id], rfc3339) {
      EntryHasListedLine(t, order, rfc3339, id);
    }
  }

  /** Any two iteration orders write the same lines, each the same number of times. */
  lemma {:induction false} ListingDeterminedUpToOrder(t: Tasks, o1: seq<Id>, o2: seq<Id>, rfc3339: Timestamp -> string)
    requires IsEnumeration(o1, t) && IsEnumeration(o2, t)
    ensures multiset(Lines(t, o1, rfc3339)) == multiset(Lines(t, o2, rfc3339))
  {
    LinesDistinct(t, o1, rfc3339);
    LinesDistinct(t, o2, rfc3339);
    forall line | true
      ensures multiset(Lines(t, o1, rfc3339))[line] == multiset(Lines(t, o2, rfc3339))[line]
    {
      DistinctCount(Lines(t, o1, rfc3339), line);
      DistinctCount(Lines(t, o2, rfc3339), line);
      InListing(t, o1, rfc3339, line);
      InListing(t, o2, rfc3339, line);
    }
  }

  /** A one-entry map has only the one-element enumeration. */
  lemma SingletonEnumeration(id: Id, task: Task, order: seq<Id>)
    requires IsEnumeration(order, map[id := task])
    ensures order == [id]
  {
    forall x | true
      ensures multiset(order)[x] == multiset{id}[x]
    {
      DistinctCount(order, x);
    }
    assert multiset(order) == multiset{id};
    assert |order| == 1;
  }

  lemma Assoc(a: string, b: string, c: string)
    ensures a + (b + c) == (a + b) + c
  {
  }

  /** The line for ID 1, spelled out. */
  lemma LineOfIdOne(task: Task, rfc3339: Timestamp -> string)
    ensures Line(1, task, rfc3339)
            == "ID: 1, Description: " + task.description + ", Status: " + task.status
               + ", CreatedAt: " + rfc3339(task.createdate) + "\n"
  {
    Decimal.IntToStringOne();
    var d, st, ts := task.description, task.status, rfc3339(task.createdate);
    var p := "ID: 1";
    assert Line(1, task, rfc3339) == p + LineTail(task, rfc3339);
    Assoc(p, ", Description: " + d + ", Status: " + st + ", CreatedAt: " + ts, "\n");
    Assoc(p, ", Description: " + d + ", Status: " + st + ", CreatedAt: ", ts);
    Assoc(p, ", Description: " + d + ", Status: " + st, ", CreatedAt: ");
    Assoc(p, ", Description: " + d + ", Status: ", st);
    Assoc(p, ", Description: " + d, ", Status: ");
    Assoc(p, ", Description: ", d);
    assert p + ", Description: " == "ID: 1, Description: ";
  }

  /** A one-entry map under ID 1 lists as that one line. */
  lemma ListSingleTask(task: Task, order: seq<Id>, rfc3339: Timestamp -> string)
    requires IsEnumeration(order, map[1 := task])
    ensures Concat(Lines(map[1 := task], order, rfc3339))
            == "ID: 1, Description: " + task.description + ", Status: " + task.status
               + ", CreatedAt: " + rfc3339(task.createdate) + "\n"
  {
    SingletonEnumeration(1, task, order);
    var line := Line(1, task, rfc3339);
    var ls := Lines(map[1 := task], order, rfc3339);
    assert ls == [line];
    ConcatSnoc([], line);
    assert [] + [line] == [line];
    LineOfIdOne(task, rfc3339);
  }
}
