/** The statement state as a function of the history of events: what is kept incrementally
equals what the events since the last boundary say, for every run. */
module StatementHistory {
  import opened Bytes
  import opened Rules
  import opened TableBuffer
  import opened Statement

  /** An event and the configuration active when it was handled. */
  datatype Item = Item(event: Event, config: Config)

  /** The state after a connection's events, from its first one on. */
  function After(h: seq<Item>): View {
    if h == [] then Zero else Apply(After(h[..|h| - 1]), h[|h| - 1].event, h[|h| - 1].config.rules)
  }

  /** What the k-th event outputs. */
  function Emitted(h: seq<Item>, k: nat): Option<Output>
    requires k < |h|
  {
    EventOutput(After(h[..k]), h[k].event, h[k].config)
  }

  // ---- the history ----

  /** The events that close or open a statement. A STATUS that is no query does neither. */
  predicate IsBoundary(e: Event) { e.Log? || e.Disconnect? || (e.Status? && IsQuery(e.status.kind)) }

  /** Everything from `b` on happened since the last boundary. */
  predicate Since(h: seq<Item>, b: nat) {
    && b <= |h|
    && (b > 0 ==> IsBoundary(h[b - 1].event))
    && forall i :: b <= i < |h| ==> !IsBoundary(h[i].event)
  }

  /** The commands one event allows: those of a table access that counts, under the rules
      active at that moment. */
  function Allows(item: Item): Mask {
    if item.event.TableAccess? && Counts(item.config.rules, item.event.db, item.event.table)
    then AccessMask(item.config.rules, item.event.db, item.event.table) else {}
  }

  /** The name it records. */
  function Records(item: Item): seq<string> {
    if item.event.TableAccess? && Counts(item.config.rules, item.event.db, item.event.table)
    then [FullName(item.event.db, item.event.table)] else []
  }

  function AllRecorded(h: seq<Item>): seq<string> {
    if h == [] then [] else AllRecorded(h[..|h| - 1]) + Records(h[|h| - 1])
  }

  predicate Started(h: seq<Item>, b: nat)
    requires b <= |h|
  {
    b > 0 && h[b - 1].event.Log?
  }

  predicate Touched(h: seq<Item>, b: nat)
    requires b <= |h|
  {
    exists i :: b <= i < |h| && h[i].event.TableAccess?
  }

  predicate AllowedSince(h: seq<Item>, b: nat, c: Command)
    requires b <= |h|
  {
    exists i :: b <= i < |h| && c in Allows(h[i])
  }

  /** The state says exactly what happened since the boundary. */
  ghost predicate Tells(h: seq<Item>, b: nat, v: View)
    requires b <= |h|
  {
    && (forall c :: c in v.mask <==> AllowedSince(h, b, c))
    && v.tables == AddNames(AllRecorded(h[b..]))
    && v.haveStart == Started(h, b)
    && (Started(h, b) ==> v.startNs == h[b - 1].event.now)
    && v.inStatement == (Started(h, b) || Touched(h, b))
  }

  lemma TellsAtBoundary(h: seq<Item>, v: View)
    requires h == [] || IsBoundary(h[|h| - 1].event)
    requires v.mask == {} && v.tables == EmptyBuffer && v.haveStart == v.inStatement == Started(h, |h|)
    requires Started(h, |h|) ==> v.startNs == h[|h| - 1].event.now
    ensures Tells(h, |h|, v)
  {
    assert h[|h|..] == [];
  }

  lemma AllowedSinceSnoc(h: seq<Item>, b: nat, x: Item, c: Command)
    requires b <= |h|
    ensures AllowedSince(h + [x], b, c) <==> AllowedSince(h, b, c) || c in Allows(x)
    ensures Touched(h + [x], b) <==> Touched(h, b) || x.event.TableAccess?
  {
    hide Allows;
    var g := h + [x];
    assert g[|h|] == x;
    assert forall i :: b <= i < |h| ==> g[i] == h[i];
  }

  lemma RecordedSnoc(h: seq<Item>, b: nat, x: Item)
    requires b <= |h|
    ensures AllRecorded((h + [x])[b..]) == AllRecorded(h[b..]) + Records(x)
  {
    hide Records;
    assert (h + [x])[b..] == h[b..] + [x];
    assert (h[b..] + [x])[..|h| - b] == h[b..];
  }

  lemma AddNamesSnoc(names: seq<string>, name: string)
    ensures AddNames(names + [name]) == AddName(AddNames(names), name)
  {
    hide AddName;
    assert (names + [name])[..|names|] == names;
  }

  /** An access extends what the state tells by exactly its own share. */
  lemma TellsAccess(h: seq<Item>, b: nat, v: View, x: Item)
    requires b <= |h| && Tells(h, b, v) && x.event.TableAccess?
    requires !v.inStatement ==> v.mask == {} && v.tables == EmptyBuffer
    ensures Tells(h + [x], b, Apply(v, x.event, x.config.rules))
  {
    hide Counts, AccessMask, AddName, AddNames, AllRecorded, AllowedSince, Touched, FullName;
    var w := Apply(v, x.event, x.config.rules);
    forall c: Command
      ensures c in w.mask <==> AllowedSince(h + [x], b, c)
      ensures Touched(h + [x], b)
    {
      AllowedSinceSnoc(h, b, x, c);
    }
    assert Touched(h + [x], b) by { AllowedSinceSnoc(h, b, x, Select); }
    RecordedSnoc(h, b, x);
    AddNamesSnoc(AllRecorded(h[b..]), FullName(x.event.db, x.event.table));
    assert AllRecorded(h[b..]) + [] == AllRecorded(h[b..]);
  }

  lemma TellsIdle(h: seq<Item>, b: nat, v: View, x: Item)
    requires b <= |h| && Tells(h, b, v) && !IsBoundary(x.event) && !x.event.TableAccess?
    ensures Tells(h + [x], b, Apply(v, x.event, x.config.rules))
  {
    hide AddNames, AllRecorded, AllowedSince, Touched, Track;
    forall c: Command ensures AllowedSince(h + [x], b, c) <==> AllowedSince(h, b, c) {
      AllowedSinceSnoc(h, b, x, c);
    }
    AllowedSinceSnoc(h, b, x, Select);
    RecordedSnoc(h, b, x);
    assert AllRecorded(h[b..]) + [] == AllRecorded(h[b..]);
  }

  /** Outside a statement nothing is accumulated. */
  lemma {:induction false} NothingOutside(h: seq<Item>)
    ensures !After(h).inStatement ==> After(h).mask == {} && After(h).tables == EmptyBuffer && !After(h).haveStart
  {
    hide Track, Counts, AccessMask, AddName;
    if h != [] {
      NothingOutside(h[..|h| - 1]);
    }
  }

  /** The state after any run tells exactly what happened since the last boundary: the mask
      is the union of what the accesses allowed, each under the rules active then; the
      buffer holds the names recorded since; there is a start clock exactly when the
      boundary was a LOG. */
  lemma {:induction false} StateTellsHistory(h: seq<Item>, b: nat)
    requires Since(h, b)
    ensures Tells(h, b, After(h))
  {
    hide Tells, Track, Access;
    if b == |h| {
      BoundaryResets(h);
      TellsAtBoundary(h, After(h));
    } else {
      var before, x := h[..|h| - 1], h[|h| - 1];
      assert h == before + [x] && Since(before, b);
      StateTellsHistory(before, b);
      NothingOutside(before);
      if x.event.TableAccess? {
        TellsAccess(before, b, After(before), x);
      } else {
        TellsIdle(before, b, After(before), x);
      }
    }
  }

  lemma BoundaryResets(h: seq<Item>)
    requires h == [] || IsBoundary(h[|h| - 1].event)
    ensures var v := After(h);
            v.mask == {} && v.tables == EmptyBuffer && v.haveStart == v.inStatement == Started(h, |h|)
            && (Started(h, |h|) ==> v.startNs == h[|h| - 1].event.now)
  {
    hide Track;
  }

  // ---- the session schema ----

  function Names(e: Event): string { if e.Status? then SchemaNamed(e.status.kind, e.status.query) else [] }

  /** The last schema named since the connection was made. */
  ghost predicate SessionSchema(h: seq<Item>, db: string) {
    || (db == [] && exists d: nat :: d <= |h| && Forgotten(h, d) && forall i :: d <= i < |h| ==> Names(h[i].event) == [])
    || exists j :: 0 <= j < |h| && db == Names(h[j].event) != []
                   && forall i :: j < i < |h| ==> Names(h[i].event) == [] && !h[i].event.Disconnect?
  }

  predicate Forgotten(h: seq<Item>, d: nat) { d == 0 || (d <= |h| && h[d - 1].event.Disconnect?) }

  lemma {:induction false} SchemaIsLastNamed(h: seq<Item>)
    ensures SessionSchema(h, After(h).db)
  {
    hide SchemaNamed, Access;
    if h == [] {
      assert Forgotten(h, 0);
    } else {
      var n := |h| - 1;
      var before, x := h[..n], h[n];
      assert forall i :: 0 <= i < n ==> before[i] == h[i];
      SchemaIsLastNamed(before);
      SchemaStep(After(before), x);
      if x.event.Disconnect? {
        assert Forgotten(h, |h|);
      } else if Names(x.event) != [] {
        assert After(h).db == Names(h[n].event);
      } else if exists d: nat :: d <= n && Forgotten(before, d) && forall i :: d <= i < n ==> Names(before[i].event) == [] {
        var d: nat :| d <= n && Forgotten(before, d) && forall i :: d <= i < n ==> Names(before[i].event) == [];
        assert Forgotten(h, d);
        if After(before).db != [] {
          SchemaCarries(h, After(before).db);
        }
      } else {
        SchemaCarries(h, After(before).db);
      }
    }
  }

  lemma SchemaCarries(h: seq<Item>, db: string)
    requires h != [] && db != [] && SessionSchema(h[..|h| - 1], db)
    requires Names(h[|h| - 1].event) == [] && !h[|h| - 1].event.Disconnect?
    ensures SessionSchema(h, db)
  {
    hide Names;
    var before := h[..|h| - 1];
    var j :| 0 <= j < |before| && db == Names(before[j].event) != []
             && forall i :: j < i < |before| ==> Names(before[i].event) == [] && !before[i].event.Disconnect?;
    assert forall i :: 0 <= i < |before| ==> before[i] == h[i];
    assert db == Names(h[j].event);
  }

  lemma SchemaStep(v: View, x: Item)
    ensures var db := Apply(v, x.event, x.config.rules).db;
            db == if x.event.Disconnect? then [] else if Names(x.event) != [] then Names(x.event) else v.db
  {
    hide SchemaNamed, Counts, AccessMask, AddName;
  }
}
