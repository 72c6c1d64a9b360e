/** The session's profile table: saving an athlete replaces any row of the
    same name and appends the new row; the dashboard's tabs look a row up by
    name and take the first match. */
module Roster {
  import opened Taxonomy
  import opened Text
  import opened Profiles

  datatype Option<T> = None | Some(value: T)

  /** The rows whose name differs from `name`, in their original order
      (the table filtered with the mask "name column != name"). */
  function Without(rows: seq<Profile>, name: string): (r: seq<Profile>)
    ensures |r| <= |rows|
    ensures forall p :: p in r <==> p in rows && p.name != name
  {
    if rows == [] then []
    else
      var init, last := rows[..|rows| - 1], rows[|rows| - 1];
      assert rows == init + [last];
      Without(init, name) + (if last.name == name then [] else [last])
  }

  /** The number of rows named `name`. */
  function Count(rows: seq<Profile>, name: string): nat
  {
    if rows == [] then 0
    else Count(rows[..|rows| - 1], name) + (if rows[|rows| - 1].name == name then 1 else 0)
  }

  /** Some row is named `name`. */
  predicate HasName(rows: seq<Profile>, name: string)
  {
    exists i :: 0 <= i < |rows| && rows[i].name == name
  }

  /** No two rows share a name. */
  predicate NamesUnique(rows: seq<Profile>)
  {
    forall i, j :: 0 <= i < j < |rows| ==> rows[i].name != rows[j].name
  }

  /** The table after saving `p`: the rows of its name dropped, `p` appended. */
  function Upsert(rows: seq<Profile>, p: Profile): seq<Profile>
  {
    Without(rows, p.name) + [p]
  }

  /** The first row named `name`, if there is one. */
  function FirstByName(rows: seq<Profile>, name: string): Option<Profile>
  {
    if rows == [] then None
    else
      var first := FirstByName(rows[..|rows| - 1], name);
      if first.Some? then first
      else if rows[|rows| - 1].name == name then Some(rows[|rows| - 1])
      else None
  }

  /** The lookup finds nothing exactly when no row carries the name, and
      otherwise finds a row of that name before which no row carries it. */
  lemma {:induction false} FirstByNameCorrect(rows: seq<Profile>, name: string)
    ensures FirstByName(rows, name).None? <==> !HasName(rows, name)
    ensures FirstByName(rows, name).Some? ==>
      exists i :: 0 <= i < |rows| && rows[i] == FirstByName(rows, name).value && rows[i].name == name &&
                  forall j :: 0 <= j < i ==> rows[j].name != name
  {
    if rows != [] {
      var init := rows[..|rows| - 1];
      FirstByNameCorrect(init, name);
      assert forall j :: 0 <= j < |init| ==> init[j] == rows[j];
      if FirstByName(init, name).Some? {
        var i :| 0 <= i < |init| && init[i] == FirstByName(init, name).value && init[i].name == name &&
                 forall j :: 0 <= j < i ==> init[j].name != name;
        assert rows[i] == init[i];
      }
    }
  }

  /** Dropping a name that no row carries leaves the table as it was. */
  lemma {:induction false} WithoutAbsent(rows: seq<Profile>, name: string)
    requires !HasName(rows, name)
    ensures Without(rows, name) == rows
  {
    if rows != [] {
      var init := rows[..|rows| - 1];
      assert !HasName(init, name) by {
        forall i | 0 <= i < |init| ensures init[i].name != name { assert init[i] == rows[i]; }
      }
      WithoutAbsent(init, name);
      assert rows == init + [rows[|rows| - 1]];
    }
  }

  /** Dropping a name removes exactly the rows that carry it. */
  lemma {:induction false} WithoutLength(rows: seq<Profile>, name: string)
    ensures |Without(rows, name)| == |rows| - Count(rows, name)
  {
    if rows != [] {
      WithoutLength(rows[..|rows| - 1], name);
    }
  }

  /** In a table with unique names a name occurs at most once. */
  lemma {:induction false} CountUnique(rows: seq<Profile>, name: string)
    requires NamesUnique(rows)
    ensures Count(rows, name) == if HasName(rows, name) then 1 else 0
  {
    if rows != [] {
      var init, last := rows[..|rows| - 1], rows[|rows| - 1];
      assert NamesUnique(init) by {
        forall i, j | 0 <= i < j < |init| ensures init[i].name != init[j].name {
          assert init[i] == rows[i] && init[j] == rows[j];
        }
      }
      CountUnique(init, name);
      if last.name == name {
        assert !HasName(init, name) by {
          forall i | 0 <= i < |init| ensures init[i].name != name { assert init[i] == rows[i]; }
        }
      } else {
        assert HasName(rows, name) ==> HasName(init, name) by {
          if HasName(rows, name) {
            var i :| 0 <= i < |rows| && rows[i].name == name;
            assert init[i] == rows[i];
          }
        }
        assert HasName(init, name) ==> HasName(rows, name) by {
          if HasName(init, name) {
            var i :| 0 <= i < |init| && init[i].name == name;
            assert rows[i] == init[i];
          }
        }
      }
    }
  }

  /** Dropping a name keeps the names of the remaining rows unique. */
  lemma {:induction false} WithoutUnique(rows: seq<Profile>, name: string)
    requires NamesUnique(rows)
    ensures NamesUnique(Without(rows, name))
  {
    if rows != [] {
      var init, last := rows[..|rows| - 1], rows[|rows| - 1];
      assert NamesUnique(init) by {
        forall i, j | 0 <= i < j < |init| ensures init[i].name != init[j].name {
          assert init[i] == rows[i] && init[j] == rows[j];
        }
      }
      WithoutUnique(init, name);
      var w := Without(init, name);
      forall q | q in w ensures q.name != last.name {
        var i :| 0 <= i < |init| && init[i] == q;
        assert rows[i] == q;
      }
      if last.name != name {
        var r := w + [last];
        forall i, j | 0 <= i < j < |r| ensures r[i].name != r[j].name {
          if j == |w| { assert r[i] in w; }
        }
      }
    }
  }

  /** After saving `p`, exactly one row carries its name, the last one, and it is `p`. */
  lemma UpsertSavedRow(rows: seq<Profile>, p: Profile)
    ensures var r := Upsert(rows, p);
      |r| > 0 && r[|r| - 1] == p && forall i :: 0 <= i < |r| ==> (r[i].name == p.name <==> i == |r| - 1)
    ensures Count(Upsert(rows, p), p.name) == 1
  {
    var w := Without(rows, p.name);
    var r := w + [p];
    forall i | 0 <= i < |w| ensures r[i].name != p.name {
      assert r[i] == w[i] && w[i] in w;
    }
    assert !HasName(w, p.name);
    WithoutLength(w, p.name);
    WithoutAbsent(w, p.name);
    assert r[..|r| - 1] == w;
  }

  /** Saving `p` keeps every row of another name, in its original relative
      order: dropping `p`'s name from the new table gives the same rows as
      dropping it from the old one. */
  lemma UpsertKeepsOthers(rows: seq<Profile>, p: Profile)
    ensures Without(Upsert(rows, p), p.name) == Without(rows, p.name)
    ensures forall q :: q in rows && q.name != p.name ==> q in Upsert(rows, p)
  {
    var w := Without(rows, p.name);
    var r := w + [p];
    assert r[..|r| - 1] == w;
    assert !HasName(w, p.name) by {
      forall i | 0 <= i < |w| ensures w[i].name != p.name { assert w[i] in w; }
    }
    WithoutAbsent(w, p.name);
  }

  /** Saving preserves unique names. */
  lemma UpsertKeepsUnique(rows: seq<Profile>, p: Profile)
    requires NamesUnique(rows)
    ensures NamesUnique(Upsert(rows, p))
  {
    WithoutUnique(rows, p.name);
    var w := Without(rows, p.name);
    var r := w + [p];
    forall i, j | 0 <= i < j < |r| ensures r[i].name != r[j].name {
      if j == |w| { assert r[i] in w; } else { assert r[i] == w[i] && r[j] == w[j]; }
    }
  }

  /** With unique names, saving grows the table by one row for a new name
      and keeps its size for a name already present. */
  lemma UpsertSize(rows: seq<Profile>, p: Profile)
    requires NamesUnique(rows)
    ensures |Upsert(rows, p)| == if HasName(rows, p.name) then |rows| else |rows| + 1
  {
    WithoutLength(rows, p.name);
    CountUnique(rows, p.name);
  }

  /** Saving two profiles under the same name leaves the table as if only the
      second had been saved. */
  lemma UpsertTwice(rows: seq<Profile>, p: Profile, q: Profile)
    requires p.name == q.name
    ensures Upsert(Upsert(rows, p), q) == Upsert(rows, q)
  {
    UpsertKeepsOthers(rows, p);
  }

  /** Looking up a name other than `name` sees the same first row whether or
      not the rows named `name` were dropped. */
  lemma {:induction false} FirstByNameWithout(rows: seq<Profile>, name: string, other: string)
    requires other != name
    ensures FirstByName(Without(rows, name), other) == FirstByName(rows, other)
  {
    if rows != [] {
      var init, last := rows[..|rows| - 1], rows[|rows| - 1];
      FirstByNameWithout(init, name, other);
      var w := Without(init, name);
      if last.name != name {
        assert Without(rows, name) == w + [last];
        assert (w + [last])[..|w|] == w;
      } else {
        assert Without(rows, name) == w;
      }
    }
  }

  /** After saving `p`, looking up its name finds `p`, and looking up any other
      name finds what it found before. */
  lemma UpsertLookup(rows: seq<Profile>, p: Profile, other: string)
    ensures FirstByName(Upsert(rows, p), p.name) == Some(p)
    ensures other != p.name ==> FirstByName(Upsert(rows, p), other) == FirstByName(rows, other)
  {
    var w := Without(rows, p.name);
    var r := w + [p];
    assert r[..|r| - 1] == w;
    assert !HasName(w, p.name) by {
      forall i | 0 <= i < |w| ensures w[i].name != p.name { assert w[i] in w; }
    }
    FirstByNameCorrect(w, p.name);
    if other != p.name {
      FirstByNameWithout(rows, p.name, other);
    }
  }

  /** Builds the rows whose name differs from `name`, scanning the table in order. */
  method Filter(rows: seq<Profile>, name: string) returns (kept: seq<Profile>)
    ensures kept == Without(rows, name)
  {
    kept := [];
    var i := 0;
    while i < |rows|
      invariant 0 <= i <= |rows|
      invariant kept == Without(rows[..i], name)
    {
      assert rows[..i + 1][..i] == rows[..i];
      if rows[i].name != name {
        kept := kept + [rows[i]];
      }
      i := i + 1;
    }
    assert rows[..|rows|] == rows;
  }

  /** What every stored row satisfies: a non-blank, already stripped name and
      an entry for every attribute of the universe. */
  predicate Stored(p: Profile)
  {
    p.name != "" && Strip(p.name) == p.name && AllAttributes <= p.attributes.Keys
  }

  /** The invariant of the session table: unique names, every row stored as a save leaves it. */
  predicate ValidRows(rows: seq<Profile>)
  {
    NamesUnique(rows) && forall p :: p in rows ==> Stored(p)
  }

  /** The profile built from a non-blank name is stored as a save leaves it. */
  lemma NewProfileStored(rawName: string, position: Position, inputs: Scores)
    requires !Blank(rawName)
    ensures Stored(NewProfile(Strip(rawName), position, inputs))
  {
  }

  /** Saving a stored profile keeps the table's invariant. */
  lemma UpsertKeepsValid(rows: seq<Profile>, p: Profile)
    requires ValidRows(rows) && Stored(p)
    ensures ValidRows(Upsert(rows, p))
  {
    UpsertKeepsUnique(rows, p);
  }

  /** The session's profile table. */
  class Session {
    var rows: seq<Profile>

    ghost predicate Valid()
      reads this
    {
      ValidRows(rows)
    }

    /** The table a new session starts with. */
    constructor ()
      ensures Valid() && rows == []
    {
      rows := [];
    }

    /** Saves the athlete typed into the form. A name that is blank once
        stripped is rejected and leaves the table unchanged; otherwise the
        stripped name's old row, if any, is dropped and the new profile
        appended. */
    method Save(rawName: string, position: Position, inputs: Scores) returns (saved: bool)
      requires Valid()
      modifies this
      ensures Valid()
      ensures saved <==> !Blank(rawName)
      ensures !saved ==> rows == old(rows)
      ensures saved ==> rows == Upsert(old(rows), NewProfile(Strip(rawName), position, inputs))
    {
      var name := Strip(rawName);
      if name == "" {
        return false;
      }
      var profile := NewProfile(name, position, inputs);
      NewProfileStored(rawName, position, inputs);
      UpsertKeepsValid(rows, profile);
      if HasName(rows, name) {
        rows := Filter(rows, name);
      } else {
        WithoutAbsent(rows, name);
      }
      rows := rows + [profile];
      saved := true;
    }

    /** The first row named `name`, as the dashboard's tabs select it. */
    method Find(name: string) returns (found: Option<Profile>)
      ensures found == FirstByName(rows, name)
      ensures Valid() && found.Some? ==> forall i :: 0 <= i < |rows| && rows[i].name == name ==> rows[i] == found.value
    {
      found := None;
      var i := 0;
      while i < |rows|
        invariant 0 <= i <= |rows|
        invariant found == FirstByName(rows[..i], name)
      {
        assert rows[..i + 1][..i] == rows[..i];
        if found.None? && rows[i].name == name {
          found := Some(rows[i]);
        }
        i := i + 1;
      }
      assert rows[..|rows|] == rows;
      FirstByNameCorrect(rows, name);
    }
  }
}
