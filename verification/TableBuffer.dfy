/** The fixed-size list of touched tables of src/selective_trace_mysql.cc: `state_add_table`
and the way the list is split again for output. */
module TableBuffer {
  import opened Bytes

  const CAPACITY: nat := 3968

  /** The text of the buffer, "db.tbl,db.tbl,...", and whether a table did not make it. */
  datatype Buffer = Buffer(text: string, truncated: bool)

  const EmptyBuffer := Buffer("", false)

  /** The entries between commas; the text after a last comma is no entry when empty. */
  function Pieces(text: string): (ps: seq<string>)
    ensures forall p <- ps :: ',' !in p
    decreases |text|
  {
    if text == [] then [] else
      var k := IndexOf(text, ',');
      [text[..k]] + (if k == |text| then [] else Pieces(text[k + 1..]))
  }

  function Extended(text: string, name: string): string { if text == [] then name else text + [','] + name }

  /** Record a name, unless it is there or there is no room. */
  function AddName(b: Buffer, name: string): Buffer {
    if |name| >= CAPACITY then b.(truncated := true)
    else if name in Pieces(b.text) then b
    else if |Extended(b.text, name)| >= CAPACITY then b.(truncated := true)
    else b.(text := Extended(b.text, name))
  }

  function AddNames(names: seq<string>): Buffer {
    if names == [] then EmptyBuffer else AddName(AddNames(names[..|names| - 1]), names[|names| - 1])
  }

  // ---- the ordered set it stands for ----

  /** Names kept in first-fit order. */
  datatype Kept = Kept(names: seq<string>, truncated: bool)

  predicate Fits(names: seq<string>, name: string) { |Extended(Join(names, ','), name)| < CAPACITY }

  function Keep(k: Kept, name: string): Kept {
    if name in k.names then k
    else if Fits(k.names, name) then k.(names := k.names + [name])
    else k.(truncated := true)
  }

  function KeepAll(names: seq<string>): Kept {
    if names == [] then Kept([], false) else Keep(KeepAll(names[..|names| - 1]), names[|names| - 1])
  }

  /** A table name as the events deliver it: never empty, and here without a comma. */
  predicate Clean(name: string) { name != [] && ',' !in name }

  lemma PiecesOfJoin(names: seq<string>)
    requires forall n <- names :: Clean(n)
    ensures Pieces(Join(names, ',')) == names
  {
    if |names| == 1 {
      var n := names[0];
      assert n in names && n[..|n|] == n;
      IndexOfUnique(n, ',', |n|);
    } else if |names| > 1 {
      var n, rest := names[0], Join(names[1..], ',');
      var text := n + [','] + rest;
      assert n in names && text[..|n|] == n && text[|n| + 1..] == rest;
      IndexOfUnique(text, ',', |n|);
      PiecesOfJoin(names[1..]);
    }
  }

  lemma {:induction false} JoinNonEmpty(names: seq<string>)
    requires names != [] && forall n <- names :: Clean(n)
    ensures Join(names, ',') != [] && forall n <- names :: |n| <= |Join(names, ',')|
  {
    assert names[0] in names;
    assert names == [names[0]] + names[1..];
    if |names| > 1 {
      JoinNonEmpty(names[1..]);
    }
  }

  /** One step of the buffer is one step of the ordered set. */
  lemma AddKeeps(k: Kept, name: string)
    requires (forall n <- k.names :: Clean(n)) && (k.names != [] ==> |Join(k.names, ',')| < CAPACITY)
    ensures AddName(Buffer(Join(k.names, ','), k.truncated), name)
            == Buffer(Join(Keep(k, name).names, ','), Keep(k, name).truncated)
  {
    hide Pieces, Join;
    PiecesOfJoin(k.names);
    JoinSnoc(k.names, name, ',');
    if k.names != [] {
      JoinNonEmpty(k.names);
    } else {
      EmptyJoin();
    }
  }

  lemma FirstPiece(text: string)
    requires text != []
    ensures var k := IndexOf(text, ',');
            Pieces(text) == [text[..k]] + (if k == |text| then [] else Pieces(text[k + 1..]))
  {
    hide IndexOf;
  }

  lemma NoPieces()
    ensures Pieces([]) == []
  {
  }

  lemma EmptyJoin()
    ensures Join([], ',') == []
  {
  }

  ghost predicate InOrder(names: seq<string>, kept: seq<string>) {
    exists at: seq<nat> :: Witness(names, kept, at)
  }

  /** `kept` are names at increasing positions, each its own first occurrence. */
  predicate Witness(names: seq<string>, kept: seq<string>, at: seq<nat>) {
    && |at| == |kept|
    && (forall i :: 0 <= i < |at| ==> at[i] < |names| && names[at[i]] == kept[i] && kept[i] !in names[..at[i]])
    && (forall i, j :: 0 <= i < j < |at| ==> at[i] < at[j])
  }

  /** What the ordered set guarantees about the names recorded so far: the list is short
      enough, its names are the first occurrences in order, and truncation is flagged
      exactly when some recorded name is missing. A name that is missing can no longer fit. */
  ghost predicate Refines(names: seq<string>, k: Kept) {
    && (forall n <- k.names :: n in names)
    && (k.names != [] ==> |Join(k.names, ',')| < CAPACITY)
    && InOrder(names, k.names)
    && (forall n <- names :: n in k.names || !Fits(k.names, n))
    && (k.truncated <==> exists n <- names :: n !in k.names)
  }

  lemma StillTooLong(names: seq<string>, added: string, n: string)
    requires (forall m <- names :: Clean(m)) && Clean(added) && !Fits(names, n)
    ensures !Fits(names + [added], n)
  {
    JoinSnoc(names, added, ',');
    if names != [] {
      JoinNonEmpty(names);
    }
  }

  lemma KeepRefines(names: seq<string>, k: Kept, name: string)
    requires (forall n <- names :: Clean(n)) && Clean(name) && Refines(names, k)
    ensures Refines(names + [name], Keep(k, name))
  {
    hide Refines, Fits, Clean;
    if name in k.names || !Fits(k.names, name) {
      DroppedRefines(names, k, name);
    } else {
      AddedRefines(names, k, name);
    }
  }

  /** A name that is there, or that does not fit. */
  lemma DroppedRefines(names: seq<string>, k: Kept, name: string)
    requires Refines(names, k) && (name in k.names || !Fits(k.names, name))
    ensures Refines(names + [name], Keep(k, name))
  {
    hide Fits, Join, Witness;
    var all := names + [name];
    var at :| Witness(names, k.names, at);
    WitnessGrows(names, k.names, at, name);
    assert name in all && forall n <- names :: n in all;
    assert forall n <- all :: n in names || n == name;
  }

  lemma AddedRefines(names: seq<string>, k: Kept, name: string)
    requires (forall n <- names :: Clean(n)) && Clean(name) && Refines(names, k) && name !in k.names && Fits(k.names, name)
    ensures Refines(names + [name], k.(names := k.names + [name]))
  {
    hide Fits, Join, Witness, Clean;
    assert name !in names;
    FitsJoin(k.names, name);
    AddedInOrder(names, k.names, name);
    AddedIsFull(names, k.names, name);
    AddedMisses(names, k.names, name);
  }

  lemma AddedInOrder(names: seq<string>, kept: seq<string>, name: string)
    requires InOrder(names, kept) && name !in names
    ensures InOrder(names + [name], kept + [name])
  {
    hide Witness;
    var at :| Witness(names, kept, at);
    WitnessAdds(names, kept, at, name);
  }

  lemma AddedIsFull(names: seq<string>, kept: seq<string>, name: string)
    requires (forall n <- kept :: Clean(n)) && Clean(name) && forall n <- names :: n in kept || !Fits(kept, n)
    ensures forall n <- names + [name] :: n in kept + [name] || !Fits(kept + [name], n)
  {
    hide Fits, Clean;
    forall n | n in names + [name] ensures n in kept + [name] || !Fits(kept + [name], n) {
      if n !in kept && n != name {
        StillTooLong(kept, name, n);
      }
    }
  }

  lemma AddedMisses(names: seq<string>, kept: seq<string>, name: string)
    requires name !in names
    ensures (exists n <- names + [name] :: n !in kept + [name]) <==> exists n <- names :: n !in kept
  {
    if n :| n in names && n !in kept {
      assert n in names + [name] && n !in kept + [name];
    }
    if n :| n in names + [name] && n !in kept + [name] {
      assert n in names && n !in kept;
    }
  }

  lemma FitsJoin(names: seq<string>, name: string)
    requires Fits(names, name) && Clean(name) && forall n <- names :: Clean(n)
    ensures |Join(names + [name], ',')| < CAPACITY
  {
    JoinSnoc(names, name, ',');
    if names != [] {
      JoinNonEmpty(names);
    }
  }

  lemma WitnessGrows(names: seq<string>, kept: seq<string>, at: seq<nat>, name: string)
    requires Witness(names, kept, at)
    ensures Witness(names + [name], kept, at)
  {
    assert forall i :: 0 <= i < |at| ==> (names + [name])[..at[i]] == names[..at[i]];
  }

  lemma WitnessAdds(names: seq<string>, kept: seq<string>, at: seq<nat>, name: string)
    requires Witness(names, kept, at) && name !in names
    ensures Witness(names + [name], kept + [name], at + [|names|])
  {
    assert forall i :: 0 <= i < |at| ==> (names + [name])[..at[i]] == names[..at[i]];
    assert (names + [name])[..|names|] == names;
  }

  /** The buffer refines the ordered set, for every sequence of comma-free table names: the
      text is the join of the kept names, splitting it gives them back, it stays below the
      capacity, and truncation is flagged exactly when a recorded name is missing. */
  lemma {:induction false} BufferRefinesOrderedSet(names: seq<string>)
    requires forall n <- names :: Clean(n)
    ensures var k := KeepAll(names);
            AddNames(names) == Buffer(Join(k.names, ','), k.truncated)
            && Pieces(AddNames(names).text) == k.names
            && |AddNames(names).text| < CAPACITY
            && Refines(names, k)
  {
    hide Fits, Pieces, Refines, AddName, Keep;
    if names == [] {
      EmptyJoin();
      EmptyRefines();
    } else {
      var before, name := names[..|names| - 1], names[|names| - 1];
      assert names == before + [name];
      BufferRefinesOrderedSet(before);
      var k := KeepAll(before);
      assert Clean(name);
      RefinesClean(before, k);
      AddKeeps(k, name);
      KeepRefines(before, k, name);
    }
    RefinesClean(names, KeepAll(names));
    PiecesOfJoin(KeepAll(names).names);
  }

  lemma EmptyRefines()
    ensures Refines([], Kept([], false))
  {
    assert Witness([], [], []);
  }

  lemma RefinesClean(names: seq<string>, k: Kept)
    requires (forall n <- names :: Clean(n)) && Refines(names, k)
    ensures (forall n <- k.names :: Clean(n)) && |Join(k.names, ',')| < CAPACITY
    ensures k.names != [] ==> Join(k.names, ',') != []
  {
    hide Fits, Join;
    if k.names == [] {
      EmptyJoin();
    } else {
      JoinNonEmpty(k.names);
    }
  }

  /** In bytes: the list stays below 3968, and a name is missing exactly because it would not
      have fitted behind what is there. */
  lemma BufferHolds(names: seq<string>)
    requires forall n <- names :: Clean(n)
    ensures var text := AddNames(names).text;
            && |text| < 3968
            && (AddNames(names).truncated <==> exists n <- names :: n !in Pieces(text))
            && forall n <- names :: n !in Pieces(text) ==> |n| + (if text == [] then 0 else |text| + 1) >= 3968
  {
    hide AddNames, KeepAll, Pieces, Join, InOrder;
    BufferRefinesOrderedSet(names);
  }

  // ---- names with commas ----

  lemma KeptGrows(names: seq<string>)
    requires names != []
    ensures forall n <- KeepAll(names[..|names| - 1]).names :: n in KeepAll(names).names
  {
    hide Fits;
  }

  lemma {:induction false} KeptIsShort(names: seq<string>)
    requires (forall n <- names :: n != []) && forall n <- KeepAll(names).names :: ',' !in n
    ensures forall n <- KeepAll(names).names :: Clean(n) && n in names
    ensures |Join(KeepAll(names).names, ',')| < CAPACITY
  {
    hide Fits, Join;
    if names == [] {
      EmptyJoin();
    } else {
      var before, name := names[..|names| - 1], names[|names| - 1];
      KeptGrows(names);
      assert name in names && forall n <- before :: n in names;
      KeptIsShort(before);
      var k := KeepAll(before);
      if name !in k.names && Fits(k.names, name) {
        assert name in KeepAll(names).names;
        FitsJoin(k.names, name);
      }
    }
  }

  /** As long as every name kept is free of commas, the buffer is their join. */
  lemma {:induction false} BufferIsJoin(names: seq<string>)
    requires (forall n <- names :: n != []) && forall n <- KeepAll(names).names :: ',' !in n
    ensures AddNames(names) == Buffer(Join(KeepAll(names).names, ','), KeepAll(names).truncated)
  {
    hide AddName, Keep, Join;
    if names == [] {
      EmptyJoin();
    } else {
      var before, name := names[..|names| - 1], names[|names| - 1];
      KeptGrows(names);
      assert forall n <- before :: n in names;
      BufferIsJoin(before);
      KeptIsShort(before);
      AddKeeps(KeepAll(before), name);
    }
  }

  /** A comma in a kept name is exactly what breaks the list: splitting the buffer gives the
      names back if and only if none of them has one. */
  lemma CommasBreakTheList(names: seq<string>)
    requires forall n <- names :: n != []
    ensures Pieces(AddNames(names).text) == KeepAll(names).names <==> forall n <- KeepAll(names).names :: ',' !in n
  {
    hide AddNames, KeepAll, Join, Pieces;
    if forall n <- KeepAll(names).names :: ',' !in n {
      BufferIsJoin(names);
      KeptIsShort(names);
      PiecesOfJoin(KeepAll(names).names);
    }
  }

  /** One table with a comma in its name comes back as two. */
  lemma ACommaSplitsAName(x: string, y: string)
    requires ',' !in x && ',' !in y && y != [] && |x| + 1 + |y| < CAPACITY
    ensures Pieces(AddNames([x + [','] + y]).text) == [x, y]
  {
    hide Pieces;
    var name := x + [','] + y;
    assert [name][..0] == [];
    assert AddNames([]) == EmptyBuffer;
    NoPieces();
    assert AddNames([name]) == AddName(EmptyBuffer, name);
    OnePiece(x, y);
    LastPiece(y);
  }

  lemma ACommaBreaksTheList()
    ensures Pieces(AddNames(["d.a,b"]).text) == ["d.a", "b"]
  {
    hide Pieces, AddNames;
    assert "d.a" + [','] + "b" == "d.a,b";
    ACommaSplitsAName("d.a", "b");
  }

  lemma OnePiece(x: string, rest: string)
    requires ',' !in x
    ensures Pieces(x + [','] + rest) == [x] + Pieces(rest)
  {
    var text := x + [','] + rest;
    assert text[..|x|] == x && text[|x| + 1..] == rest;
    IndexOfUnique(text, ',', |x|);
  }

  lemma LastPiece(x: string)
    requires x != [] && ',' !in x
    ensures Pieces(x) == [x]
  {
    assert x[..|x|] == x;
    IndexOfUnique(x, ',', |x|);
  }
}
