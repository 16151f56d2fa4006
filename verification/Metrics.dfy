/** The metrics tree: counters with dotted, optionally tagged names are put into one JSON
    document (src/h9d/metrics_collector.cc). A name is its list of segments here; module
    MetricNames cuts the text. */
module Metrics {

  datatype Json = Null | Num(n: nat) | Str(s: string) | Obj(fields: map<string, Json>) | Arr(items: seq<Json>)

  /** `tag` or `tag[arg=value]`. */
  datatype Segment = Plain(tag: string) | Tagged(tag: string, arg: string, value: string)

  // ---- one step of the pointer that walks down the tree ----

  function Fields(t: Json): map<string, Json> { if t.Obj? then t.fields else map[] }

  predicate HasTag(e: Json, arg: string, value: string) { arg in Fields(e) && Fields(e)[arg] == Str(value) }

  /** The first item that carries the tag, or the number of items. */
  function Find(items: seq<Json>, arg: string, value: string): (k: nat)
    ensures k <= |items|
    ensures forall i :: 0 <= i < k ==> !HasTag(items[i], arg, value)
    ensures k < |items| ==> HasTag(items[k], arg, value)
  {
    if items == [] then 0
    else if HasTag(items[0], arg, value) then 0
    else 1 + Find(items[1..], arg, value)
  }

  function Items(t: Json, tag: string): seq<Json> {
    if tag in Fields(t) && Fields(t)[tag].Arr? then Fields(t)[tag].items else []
  }

  /** On any other combination that can arise here the library throws. */
  predicate StepOk(t: Json, s: Segment) {
    (t.Null? || t.Obj?) && (s.Tagged? && s.tag in Fields(t) ==> Fields(t)[s.tag].Arr? || Fields(t)[s.tag].Null?)
  }

  /** What the pointer points at after the step; made on the way if it was not there. */
  function Child(t: Json, s: Segment): Json {
    match s
    case Plain(tag) => if tag in Fields(t) then Fields(t)[tag] else Null
    case Tagged(tag, arg, value) =>
      var items := Items(t, tag);
      var k := Find(items, arg, value);
      if k < |items| then items[k] else Obj(map[arg := Str(value)])
  }

  /** The tree once what the pointer points at has become c. */
  function SetChild(t: Json, s: Segment, c: Json): Json {
    match s
    case Plain(tag) => Obj(Fields(t)[tag := c])
    case Tagged(tag, arg, value) =>
      var items := Items(t, tag);
      var k := Find(items, arg, value);
      Obj(Fields(t)[tag := Arr(if k < |items| then items[k := c] else items + [c])])
  }

  predicate Present(t: Json, s: Segment) {
    match s
    case Plain(tag) => tag in Fields(t)
    case Tagged(tag, arg, value) => Find(Items(t, tag), arg, value) < |Items(t, tag)|
  }

  // ---- inserting a counter, and looking one up ----

  function Insert(t: Json, path: seq<Segment>, v: nat): Json
    decreases |path|
  {
    if path == [] then Num(v) else SetChild(t, path[0], Insert(Child(t, path[0]), path[1..], v))
  }

  /** The walk throws nothing. */
  predicate Walks(t: Json, path: seq<Segment>)
    decreases |path|
  {
    path != [] ==> StepOk(t, path[0]) && Walks(Child(t, path[0]), path[1..])
  }

  /** The walk throws nothing and ends at a place that was just made. */
  predicate Accepts(t: Json, path: seq<Segment>)
    decreases |path|
  {
    if path == [] then t.Null? else StepOk(t, path[0]) && Accepts(Child(t, path[0]), path[1..])
  }

  /** Empty when there is nothing at that path. */
  function Lookup(t: Json, path: seq<Segment>): seq<Json>
    decreases |path|
  {
    if path == [] then [t]
    else if Present(t, path[0]) then Lookup(Child(t, path[0]), path[1..])
    else []
  }

  function Root(uptime: nat): Json { Obj(map["uptime" := Num(uptime)]) }

  datatype Counter = Counter(path: seq<Segment>, value: nat)

  function Build(uptime: nat, cs: seq<Counter>): Json {
    if cs == [] then Root(uptime)
    else Insert(Build(uptime, cs[..|cs| - 1]), cs[|cs| - 1].path, cs[|cs| - 1].value)
  }

  // ---- names that go together ----

  /** The name ends in an untagged segment, and no segment is called like the argument of the
      tag just before it. */
  predicate Proper(path: seq<Segment>) {
    && path != [] && path[|path| - 1].Plain?
    && forall i :: 0 <= i < |path| - 1 && path[i].Tagged? ==> path[i + 1].tag != path[i].arg
  }

  /** The names part at some segment, neither being a prefix of the other, and that segment has
      an argument in both or in neither. */
  predicate Apart(p: seq<Segment>, q: seq<Segment>) {
    p != [] && q != [] && if p[0] == q[0] then Apart(p[1..], q[1..]) else Differ(p[0], q[0])
  }

  predicate Differ(a: Segment, b: Segment) {
    a != b && (a.tag != b.tag || (a.Tagged? && b.Tagged?))
  }

  ghost predicate Consistent(cs: seq<Counter>) {
    && (forall i :: 0 <= i < |cs| ==> Proper(cs[i].path) && cs[i].path[0].tag != "uptime")
    && (forall i, j :: 0 <= i < |cs| && 0 <= j < |cs| && i != j ==> Apart(cs[i].path, cs[j].path))
  }

  // ---- one step ----

  ghost predicate OneTag(e: Json) {
    forall a, v, b, w :: HasTag(e, a, v) && HasTag(e, b, w) ==> a == b && v == w
  }

  /** Every item of every array carries one tag at most. */
  ghost predicate Neat(t: Json) {
    match t
    case Obj(fields) => forall k :: k in fields ==> Neat(fields[k])
    case Arr(items) => forall i :: 0 <= i < |items| ==> OneTag(items[i]) && Neat(items[i])
    case _ => true
  }

  lemma {:induction false} FindUpdated(items: seq<Json>, k: nat, c: Json, arg: string, value: string)
    requires k < |items| && HasTag(c, arg, value) == HasTag(items[k], arg, value)
    ensures Find(items[k := c], arg, value) == Find(items, arg, value)
  {
    hide HasTag;
    if k > 0 && !HasTag(items[0], arg, value) {
      FindUpdated(items[1..], k - 1, c, arg, value);
      assert items[k := c][1..] == items[1..][k - 1 := c];
    } else if k == 0 {
      assert items[k := c][1..] == items[1..];
    }
  }

  lemma {:induction false} FindAppended(items: seq<Json>, c: Json, arg: string, value: string)
    ensures Find(items + [c], arg, value)
         == if Find(items, arg, value) < |items| then Find(items, arg, value)
            else if HasTag(c, arg, value) then |items| else |items| + 1
  {
    hide HasTag;
    if items == [] {
      assert items + [c] == [c] && [c][1..] == [];
    } else {
      assert (items + [c])[1..] == items[1..] + [c];
      FindAppended(items[1..], c, arg, value);
    }
  }

  /** Strings in the tree are tags only: inserting below an item leaves its tags as they are. */
  ghost predicate SameTags(a: Json, b: Json) {
    forall arg, value :: HasTag(a, arg, value) == HasTag(b, arg, value)
  }

  lemma InsertIsNoString(t: Json, path: seq<Segment>, v: nat)
    ensures !Insert(t, path, v).Str? && !Insert(t, path, v).Null? && !Insert(t, path, v).Arr?
    ensures path != [] ==> Insert(t, path, v).Obj?
  {
  }

  lemma InsertKeepsTags(t: Json, path: seq<Segment>, v: nat)
    requires Accepts(t, path) && path != []
    ensures SameTags(Insert(t, path, v), t)
  {
    InsertIsNoString(Child(t, path[0]), path[1..], v);
    if |path| > 1 { assert StepOk(Child(t, path[0]), path[1..][0]); }
  }

  lemma StepBack(t: Json, s: Segment, c: Json)
    requires s.Tagged? ==> HasTag(c, s.arg, s.value)
    ensures var u := SetChild(t, s, c); Present(u, s) && Child(u, s) == c && StepOk(u, s)
  {
    if s.Tagged? {
      var items := Items(t, s.tag);
      var k := Find(items, s.arg, s.value);
      if k < |items| { FindUpdated(items, k, c, s.arg, s.value); } else { FindAppended(items, c, s.arg, s.value); }
    }
  }

  lemma StepAside(t: Json, s: Segment, c: Json, o: Segment)
    requires Neat(t) && Differ(s, o) && StepOk(t, s) && (s.Tagged? ==> SameTags(c, Child(t, s)))
    ensures var u := SetChild(t, s, c);
            && Present(u, o) == Present(t, o) && StepOk(u, o) == StepOk(t, o) && Child(u, o) == Child(t, o)
  {
    hide HasTag, Find;
    if s.tag == o.tag {
      ItemsNeat(t, s.tag);
      ItemAside(Items(t, s.tag), s.arg, s.value, c, o.arg, o.value);
    } else {
      OtherField(t, s, c, o);
    }
  }

  lemma OtherField(t: Json, s: Segment, c: Json, o: Segment)
    requires s.tag != o.tag && StepOk(t, s)
    ensures var u := SetChild(t, s, c);
            && Present(u, o) == Present(t, o) && StepOk(u, o) == StepOk(t, o) && Child(u, o) == Child(t, o)
  {
    hide HasTag, Find;
    assert Items(SetChild(t, s, c), o.tag) == Items(t, o.tag);
  }

  lemma ItemsNeat(t: Json, tag: string)
    requires Neat(t)
    ensures forall i :: 0 <= i < |Items(t, tag)| ==> OneTag(Items(t, tag)[i])
  {
    hide HasTag, OneTag;
    assert tag in Fields(t) ==> Neat(Fields(t)[tag]);
  }

  lemma ItemAside(items: seq<Json>, arg: string, value: string, c: Json, arg2: string, value2: string)
    requires arg != arg2 || value != value2
    requires forall i :: 0 <= i < |items| ==> OneTag(items[i])
    requires var k := Find(items, arg, value);
             SameTags(c, if k < |items| then items[k] else Obj(map[arg := Str(value)]))
    ensures var k, k2 := Find(items, arg, value), Find(items, arg2, value2);
            var after := if k < |items| then items[k := c] else items + [c];
            var m := Find(after, arg2, value2);
            if k2 < |items| then m == k2 && k2 != k && after[m] == items[k2] else m == |after|
  {
    assert !HasTag(Obj(map[arg := Str(value)]), arg2, value2);
    hide HasTag;
    var k, k2 := Find(items, arg, value), Find(items, arg2, value2);
    if k < |items| {
      FindUpdated(items, k, c, arg2, value2);
      assert OneTag(items[k]);
    } else {
      FindAppended(items, c, arg2, value2);
    }
  }

  lemma ChildNeat(t: Json, s: Segment)
    requires Neat(t)
    ensures Neat(Child(t, s)) && (s.Tagged? && StepOk(t, s) ==> OneTag(Child(t, s)))
  {
    hide HasTag;
    if s.Tagged? {
      assert OneTag(Obj(map[s.arg := Str(s.value)])) by { BareItem(s.arg, s.value); }
      assert Neat(Str(s.value));
    }
  }

  lemma BareItem(arg: string, value: string)
    ensures OneTag(Obj(map[arg := Str(value)]))
  {
  }

  lemma SetNeat(t: Json, s: Segment, c: Json)
    requires Neat(t) && Neat(c) && (s.Tagged? ==> OneTag(c))
    ensures Neat(SetChild(t, s, c))
  {
    hide HasTag, OneTag;
    var fields := SetChild(t, s, c).fields;
    forall k | k in fields ensures Neat(fields[k]) {
      if k == s.tag && s.Tagged? {
        var items := Items(t, s.tag);
        assert forall i :: 0 <= i < |items| ==> OneTag(items[i]) && Neat(items[i]);
      }
    }
  }

  lemma {:induction false} InsertNeat(t: Json, path: seq<Segment>, v: nat)
    requires Neat(t) && Accepts(t, path)
    ensures Neat(Insert(t, path, v))
    decreases |path|
  {
    hide Child, SetChild, StepOk, HasTag;
    if path != [] {
      ChildNeat(t, path[0]);
      InsertNeat(Child(t, path[0]), path[1..], v);
      if path[0].Tagged? { BelowItem(t, path, v); }
      SetNeat(t, path[0], Insert(Child(t, path[0]), path[1..], v));
    }
  }

  /** Below a tagged segment there is more, so the item keeps its tag. */
  lemma BelowItem(t: Json, path: seq<Segment>, v: nat)
    requires Accepts(t, path) && path != [] && path[0].Tagged?
    ensures path[1..] != [] && Accepts(Child(t, path[0]), path[1..])
    ensures SameTags(Insert(Child(t, path[0]), path[1..], v), Child(t, path[0]))
    ensures HasTag(Insert(Child(t, path[0]), path[1..], v), path[0].arg, path[0].value)
  {
    var c := Child(t, path[0]);
    assert HasTag(c, path[0].arg, path[0].value);
    InsertKeepsTags(c, path[1..], v);
  }

  // ---- whole paths ----

  /** What was inserted is found. */
  lemma {:induction false} LookupInserted(t: Json, path: seq<Segment>, v: nat)
    requires Accepts(t, path)
    ensures Lookup(Insert(t, path, v), path) == [Num(v)]
    decreases |path|
  {
    hide Child, SetChild, StepOk, Present;
    if path != [] {
      if path[0].Tagged? { BelowItem(t, path, v); }
      StepBack(t, path[0], Insert(Child(t, path[0]), path[1..], v));
      LookupInserted(Child(t, path[0]), path[1..], v);
    }
  }

  /** A later insertion disturbs no earlier one. */
  lemma {:induction false} LookupKept(t: Json, p: seq<Segment>, v: nat, q: seq<Segment>, x: nat)
    requires Neat(t) && Accepts(t, p) && Apart(p, q) && Lookup(t, q) == [Num(x)]
    ensures Lookup(Insert(t, p, v), q) == [Num(x)]
    decreases |p|
  {
    hide Child, SetChild, StepOk, Present, HasTag;
    var c := Insert(Child(t, p[0]), p[1..], v);
    if p[0].Tagged? { BelowItem(t, p, v); }
    if p[0] == q[0] {
      StepBack(t, p[0], c);
      ChildNeat(t, p[0]);
      LookupKept(Child(t, p[0]), p[1..], v, q[1..], x);
    } else {
      StepAside(t, p[0], c, q[0]);
    }
  }

  /** Nor does it get in the way of one still to come. */
  lemma {:induction false} AcceptsKept(t: Json, p: seq<Segment>, v: nat, q: seq<Segment>)
    requires Neat(t) && Accepts(t, p) && Apart(p, q) && Accepts(t, q)
    ensures Accepts(Insert(t, p, v), q)
    decreases |p|
  {
    hide Child, SetChild, StepOk, Present, HasTag;
    var c := Insert(Child(t, p[0]), p[1..], v);
    if p[0].Tagged? { BelowItem(t, p, v); }
    if p[0] == q[0] {
      StepBack(t, p[0], c);
      ChildNeat(t, p[0]);
      AcceptsKept(Child(t, p[0]), p[1..], v, q[1..]);
    } else {
      StepAside(t, p[0], c, q[0]);
    }
  }

  lemma {:induction false} AcceptsNew(t: Json, path: seq<Segment>)
    requires Proper(path) && (t.Null? || t.Obj?) && path[0].tag !in Fields(t)
    ensures Accepts(t, path)
    decreases |path|
  {
    if |path| > 1 {
      assert path[1..][|path| - 2] == path[|path| - 1];
      AcceptsNew(Child(t, path[0]), path[1..]);
    }
  }

  lemma {:induction false} AcceptedWalks(t: Json, path: seq<Segment>)
    requires Accepts(t, path)
    ensures Walks(t, path)
    decreases |path|
  {
    if path != [] { AcceptedWalks(Child(t, path[0]), path[1..]); }
  }

  /** A counter put where there was nothing is found again under its name exactly if the name is
      proper; a proper name throws nothing on the way. */
  lemma {:induction false} FoundIffProper(path: seq<Segment>, v: nat)
    requires path != []
    ensures Lookup(Insert(Null, path, v), path) == [Num(v)] <==> Proper(path)
    ensures Proper(path) ==> Walks(Null, path)
  {
    if Proper(path) {
      AcceptsNew(Null, path);
      AcceptedWalks(Null, path);
      LookupInserted(Null, path, v);
    }
    if Lookup(Insert(Null, path, v), path) == [Num(v)] { FoundIsProper(Null, path, v); }
  }

  lemma {:induction false} FoundIsProper(t: Json, path: seq<Segment>, v: nat)
    requires path != [] && path[0].tag !in Fields(t) && Lookup(Insert(t, path, v), path) == [Num(v)]
    ensures Proper(path)
    decreases |path|
  {
    var rest := path[1..];
    var c := Insert(Child(t, path[0]), rest, v);
    if path[0].Tagged? { NewItemKeepsTag(t, path, v); }
    if rest != [] {
      assert path[0].Tagged? ==> Fields(Child(t, path[0])).Keys == {path[0].arg};
      FoundIsProper(Child(t, path[0]), rest, v);
      assert forall i :: 0 < i < |path| ==> path[i] == rest[i - 1];
    }
  }

  /** The new item is found again only if the insertion below left its tag alone. */
  lemma NewItemKeepsTag(t: Json, path: seq<Segment>, v: nat)
    requires path != [] && path[0].Tagged? && path[0].tag !in Fields(t) && Present(Insert(t, path, v), path[0])
    ensures Child(Insert(t, path, v), path[0]) == Insert(Child(t, path[0]), path[1..], v)
    ensures path[1..] != [] && path[1..][0].tag != path[0].arg
  {
    var c, rest := Insert(Child(t, path[0]), path[1..], v), path[1..];
    assert Items(Insert(t, path, v), path[0].tag) == [c];
    assert HasTag(c, path[0].arg, path[0].value);
    if rest != [] { InsertIsNoString(Child(Child(t, path[0]), rest[0]), rest[1..], v); }
  }

  /** The program puts a name that ends in a tagged segment into the tree without complaint, but
      the value takes the place of the item that carried the tag. */
  lemma TaggedEndIsLost(v: nat)
    ensures var path := [Tagged("a", "b", "c")];
            && Walks(Null, path) && Insert(Null, path, v) == Obj(map["a" := Arr([Num(v)])])
            && Lookup(Insert(Null, path, v), path) == []
  {
    var path := [Tagged("a", "b", "c")];
    assert path[1..] == [] && Insert(Child(Null, path[0]), path[1..], v) == Num(v);
    assert Items(Null, "a") + [Num(v)] == [Num(v)];
    assert Fields(Null)["a" := Arr([Num(v)])] == map["a" := Arr([Num(v)])];
    assert [Num(v)][1..] == [] && Find([Num(v)], "b", "c") == 1;
  }

  /** The only new number is the one inserted. */
  lemma {:induction false} NothingElse(t: Json, p: seq<Segment>, v: nat, q: seq<Segment>, x: nat)
    requires Neat(t) && Accepts(t, p) && Lookup(Insert(t, p, v), q) == [Num(x)]
    ensures (q == p && x == v) || Lookup(t, q) == [Num(x)]
    decreases |p|
  {
    hide Child, SetChild, StepOk, Present, HasTag, Neat, SameTags;
    if p == [] || q == [] {
      AtOneEnd(t, p, v, q, x);
    } else {
      if p[0] == q[0] {
        if p[0].Tagged? { BelowItem(t, p, v); }
        StepBack(t, p[0], Insert(Child(t, p[0]), p[1..], v));
        ChildNeat(t, p[0]);
        NothingElse(Child(t, p[0]), p[1..], v, q[1..], x);
        assert q == [q[0]] + q[1..] && p == [p[0]] + p[1..];
        if !Present(t, p[0]) { NewIsBare(t, p[0], q[1..], x); }
      } else {
        if !Differ(p[0], q[0]) { MixedUse(t, p, v, q, x); }
        if p[0].Tagged? { BelowItem(t, p, v); }
        StepAside(t, p[0], Insert(Child(t, p[0]), p[1..], v), q[0]);
      }
    }
  }

  lemma AtOneEnd(t: Json, p: seq<Segment>, v: nat, q: seq<Segment>, x: nat)
    requires (p == [] || q == []) && Lookup(Insert(t, p, v), q) == [Num(x)]
    ensures q == p && x == v
  {
  }

  lemma NewIsBare(t: Json, s: Segment, rest: seq<Segment>, x: nat)
    requires !Present(t, s)
    ensures Lookup(Child(t, s), rest) != [Num(x)]
  {
    if |rest| > 1 && s.Tagged? { assert !Present(Str(s.value), rest[1..][0]); }
  }

  /** A tag used both with and without arguments leads nowhere. */
  lemma MixedUse(t: Json, p: seq<Segment>, v: nat, q: seq<Segment>, x: nat)
    requires p != [] && q != [] && p[0].tag == q[0].tag && p[0].Tagged? != q[0].Tagged?
    ensures Lookup(Insert(t, p, v), q) != [Num(x)]
  {
    InsertIsNoString(Child(t, p[0]), p[1..], v);
    if p[0].Tagged? && |q| > 1 {
      assert !Present(Child(Insert(t, p, v), q[0]), q[1..][0]);
    }
  }

  // ---- the shape of the tree ----

  /** A number, an object of such values, or an array of items no two of which share a tag;
      never null, never a string, never empty. */
  ghost predicate Value(t: Json) {
    match t
    case Num(_) => true
    case Obj(fields) => fields != map[] && forall k :: k in fields ==> Value(fields[k])
    case Arr(items) => items != [] && Distinct(items) && forall i :: 0 <= i < |items| ==> Item(items[i])
    case _ => false
  }

  /** An object with one tag, and at least one value beside it. */
  ghost predicate Item(e: Json) {
    e.Obj? && exists arg :: arg in e.fields && e.fields[arg].Str? && e.fields.Keys != {arg}
                            && forall k :: k in e.fields && k != arg ==> Value(e.fields[k])
  }

  /** An item that may still lack its values. */
  ghost predicate Loose(e: Json, arg: string) {
    e.Obj? && arg in e.fields && e.fields[arg].Str? && forall k :: k in e.fields && k != arg ==> Value(e.fields[k])
  }

  ghost predicate Distinct(items: seq<Json>) {
    forall i, j, a, v :: 0 <= i < j < |items| && HasTag(items[i], a, v) ==> !HasTag(items[j], a, v)
  }

  /** What an insertion may start from: nothing, an object of values, or an item. */
  ghost predicate Growing(t: Json) {
    t.Null? || (t.Obj? && forall k :: k in t.fields ==> Value(t.fields[k])) || exists arg :: Loose(t, arg)
  }

  lemma NoneBelowString(s: string, path: seq<Segment>)
    ensures !Accepts(Str(s), path)
  {
  }

  /** The step leads to something an insertion may start from, and not over a tag. */
  lemma ChildGrows(t: Json, path: seq<Segment>)
    requires Growing(t) && path != [] && Accepts(t, path)
    ensures Growing(Child(t, path[0]))
    ensures path[0].Plain? && Child(t, path[0]).Obj? ==> Value(Child(t, path[0]))
    ensures path[0].Tagged? ==> Loose(Child(t, path[0]), path[0].arg)
    ensures path[0].tag in Fields(t) ==> Value(Fields(t)[path[0].tag])
  {
    var s, f := path[0], Fields(t);
    if s.tag in f {
      if f[s.tag].Str? {
        if s.Plain? { NoneBelowString(f[s.tag].s, path[1..]); }
        assert false;
      }
      if s.Tagged? {
        var items := Items(t, s.tag);
        var k := Find(items, s.arg, s.value);
        if k < |items| { assert Item(items[k]); }
      }
    }
    if s.Tagged? { assert Loose(Child(t, s), s.arg); }
    NodeToWalk(Child(t, s), path[1..]);
  }

  lemma NodeToWalk(t: Json, path: seq<Segment>)
    requires Accepts(t, path)
    ensures t.Null? || t.Obj?
  {
  }

  lemma {:induction false} InsertTidy(t: Json, path: seq<Segment>, v: nat)
    requires Growing(t) && Accepts(t, path)
    ensures (t.Null? || (t.Obj? && forall k :: k in t.fields ==> Value(t.fields[k]))) ==> Value(Insert(t, path, v))
    ensures forall arg :: Loose(t, arg) ==> Loose(Insert(t, path, v), arg) && Item(Insert(t, path, v))
    decreases |path|
  {
    if path != [] {
      var s := path[0];
      ChildGrows(t, path);
      InsertTidy(Child(t, s), path[1..], v);
      var c := Insert(Child(t, s), path[1..], v);
      if s.Tagged? {
        BelowItem(t, path, v);
        ItemsTidy(t, s, c);
      }
      hide HasTag, Child, Accepts;
      var u := SetChild(t, s, c);
      assert Value(u.fields[s.tag]);
      forall arg | Loose(t, arg) ensures Loose(u, arg) && Item(u) {
        assert s.tag != arg;
        assert s.tag in u.fields.Keys;
      }
    }
  }

  /** The array stays one of items with different tags. */
  lemma ItemsTidy(t: Json, s: Segment, c: Json)
    requires s.Tagged? && (s.tag in Fields(t) ==> Value(Fields(t)[s.tag]))
    requires Item(c) && SameTags(c, Child(t, s))
    ensures Value(Fields(SetChild(t, s, c))[s.tag])
  {
    var items := Items(t, s.tag);
    var k := Find(items, s.arg, s.value);
    assert items != [] ==> Value(Arr(items));
    assert k == |items| ==> forall a, v :: HasTag(Child(t, s), a, v) ==> a == s.arg && v == s.value;
    hide HasTag;
  }

  // ---- every place in the document has a name ----

  datatype Hop = Key(key: string) | Index(index: nat)

  /** What stands at a place of the document, reached without regard to tags. */
  function At(t: Json, hops: seq<Hop>): seq<Json>
    decreases |hops|
  {
    if hops == [] then [t]
    else
      match hops[0]
      case Key(k) => if k in Fields(t) then At(Fields(t)[k], hops[1..]) else []
      case Index(i) => if t.Arr? && i < |t.items| then At(t.items[i], hops[1..]) else []
  }

  predicate Leaf(x: Json) { !x.Obj? && !x.Arr? }

  /** The place is the tag of an item of an array. */
  predicate TagPlace(hops: seq<Hop>, inItem: bool) {
    |hops| >= 1 && hops[|hops| - 1].Key? && if |hops| == 1 then inItem else hops[|hops| - 2].Index?
  }

  /** The name leads to the place, a tagged segment to an item that carries the tag. */
  predicate Names(t: Json, hops: seq<Hop>, q: seq<Segment>)
    decreases |q|
  {
    if q == [] then hops == []
    else
      match q[0]
      case Plain(tag) =>
        hops != [] && hops[0] == Key(tag) && tag in Fields(t) && Names(Fields(t)[tag], hops[1..], q[1..])
      case Tagged(tag, arg, value) =>
        && |hops| >= 2 && hops[0] == Key(tag) && hops[1].Index? && hops[1].index < |Items(t, tag)|
        && HasTag(Items(t, tag)[hops[1].index], arg, value) && Names(Items(t, tag)[hops[1].index], hops[2..], q[1..])
  }

  ghost predicate Solid(t: Json) { Value(t) || Item(t) || t.Str? }

  /** Every leaf is a tag, or a number with a name. */
  lemma {:induction false} LeafIsNamed(t: Json, hops: seq<Hop>, x: Json) returns (q: seq<Segment>)
    requires Solid(t) && !t.Arr? && !t.Str? && At(t, hops) == [x] && Leaf(x)
    ensures (x.Str? && TagPlace(hops, Item(t))) || (x.Num? && Names(t, hops, q))
    decreases |hops|
  {
    hide HasTag;
    q := [];
    if hops != [] {
      SolidIsNode(t, hops);
      var k, rest := hops[0].key, hops[1..];
      var f := Fields(t)[k];
      FieldOf(t, k);
      if f.Arr? {
        ItemsOf(f);
        var i, tail := rest[0].index, rest[1..];
        assert hops[2..] == tail;
        var arg, value := TagOf(f.items[i]);
        var q2 := LeafIsNamed(f.items[i], tail, x);
        q := [Tagged(k, arg, value)] + q2;
      } else if f.Str? {
        assert rest == [];
      } else {
        var q2 := LeafIsNamed(f, rest, x);
        q := [Plain(k)] + q2;
      }
    }
  }

  lemma SolidIsNode(t: Json, hops: seq<Hop>)
    requires Solid(t) && !t.Arr? && hops != [] && At(t, hops) != []
    ensures t.Obj? && hops[0].Key? && hops[0].key in t.fields
  {
  }

  lemma FieldOf(t: Json, k: string)
    requires Solid(t) && t.Obj? && k in t.fields
    ensures Value(t.fields[k]) || (t.fields[k].Str? && Item(t))
  {
  }

  lemma ItemsOf(f: Json)
    requires Solid(f) && f.Arr?
    ensures Distinct(f.items) && forall i :: 0 <= i < |f.items| ==> Item(f.items[i])
  {
  }

  lemma TagOf(e: Json) returns (arg: string, value: string)
    requires Item(e)
    ensures HasTag(e, arg, value)
  {
    arg :| arg in e.fields && e.fields[arg].Str?;
    value := e.fields[arg].s;
  }

  /** A name that leads to a place is looked up there: items are found by their own tags. */
  lemma {:induction false} NameIsLookup(t: Json, hops: seq<Hop>, q: seq<Segment>)
    requires Solid(t) && Names(t, hops, q)
    ensures Lookup(t, q) == At(t, hops) != []
    decreases |q|
  {
    hide HasTag;
    if q != [] {
      SolidIsNamed(t, hops, q);
      FieldOf(t, q[0].tag);
      if q[0].Plain? {
        NameIsLookup(Fields(t)[q[0].tag], hops[1..], q[1..]);
      } else {
        var f, i := Fields(t)[q[0].tag], hops[1].index;
        ItemsOf(f);
        assert hops[1..][1..] == hops[2..];
        assert Find(f.items, q[0].arg, q[0].value) == i;
        NameIsLookup(f.items[i], hops[2..], q[1..]);
      }
    }
  }

  lemma SolidIsNamed(t: Json, hops: seq<Hop>, q: seq<Segment>)
    requires Solid(t) && q != [] && Names(t, hops, q)
    ensures t.Obj? && q[0].tag in t.fields && (q[0].Tagged? ==> t.fields[q[0].tag].Arr?)
    ensures q[0].Plain? ==> !t.fields[q[0].tag].Str? || q[1..] == []
  {
  }

  /** No two places have the same name. */
  lemma {:induction false} OnePlace(t: Json, h1: seq<Hop>, h2: seq<Hop>, q: seq<Segment>)
    requires Solid(t) && Names(t, h1, q) && Names(t, h2, q)
    ensures h1 == h2
    decreases |q|
  {
    hide HasTag;
    if q != [] {
      SolidIsNamed(t, h1, q);
      FieldOf(t, q[0].tag);
      if q[0].Plain? {
        OnePlace(Fields(t)[q[0].tag], h1[1..], h2[1..], q[1..]);
        assert h1 == [h1[0]] + h1[1..] && h2 == [h2[0]] + h2[1..];
      } else {
        var f := Fields(t)[q[0].tag];
        ItemsOf(f);
        assert h1[1] == h2[1];
        OnePlace(f.items[h1[1].index], h1[2..], h2[2..], q[1..]);
        assert h1 == [h1[0], h1[1]] + h1[2..] && h2 == [h2[0], h2[1]] + h2[2..];
      }
    }
  }

  // ---- the whole document ----

  lemma RootIs(uptime: nat, q: seq<Segment>, x: nat)
    ensures Neat(Root(uptime))
    ensures Lookup(Root(uptime), q) == [Num(x)] <==> q == [Plain("uptime")] && x == uptime
  {
    assert Neat(Num(uptime));
    if |q| > 1 { assert !Present(Num(uptime), q[1..][0]); }
    if |q| > 0 { assert q == [q[0]] + q[1..]; }
  }

  /** Each counter is looked up under its own name, and no other name but the uptime's leads to
      a number. */
  ghost predicate Found(uptime: nat, cs: seq<Counter>) {
    && Neat(Build(uptime, cs))
    && (forall i :: 0 <= i < |cs| ==> Lookup(Build(uptime, cs), cs[i].path) == [Num(cs[i].value)])
    && (forall q, x :: Lookup(Build(uptime, cs), q) == [Num(x)] ==>
          (q == [Plain("uptime")] && x == uptime) || Counter(q, x) in cs)
  }

  /** The document holds the counters, each at one place, and nothing else: every leaf is a tag
      of an item, the uptime, or the value of the counter whose name leads there. */
  ghost predicate Agrees(uptime: nat, cs: seq<Counter>) {
    var j := Build(uptime, cs);
    Value(j) && Listed(j, cs) && OnlyKnown(uptime, cs, j)
  }

  ghost predicate Listed(j: Json, cs: seq<Counter>) {
    forall i :: 0 <= i < |cs| ==> Placed(j, cs[i])
  }

  ghost predicate Placed(j: Json, c: Counter) {
    Lookup(j, c.path) == [Num(c.value)] && exists hops :: IsAt(j, hops, c)
  }

  ghost predicate OnlyKnown(uptime: nat, cs: seq<Counter>, j: Json) {
    forall hops, x :: At(j, hops) == [x] && Leaf(x) ==> Known(uptime, cs, j, hops, x)
  }

  ghost predicate Known(uptime: nat, cs: seq<Counter>, j: Json, hops: seq<Hop>, x: Json) {
    || (x.Str? && TagPlace(hops, false))
    || (x == Num(uptime) && hops == [Key("uptime")])
    || exists i :: 0 <= i < |cs| && x == Num(cs[i].value) && IsAt(j, hops, cs[i])
  }

  predicate IsAt(j: Json, hops: seq<Hop>, c: Counter) { Names(j, hops, c.path) && At(j, hops) == [Num(c.value)] }

  lemma {:induction false} StillAccepted(uptime: nat, cs: seq<Counter>, q: seq<Segment>)
    requires Consistent(cs) && Proper(q) && q[0].tag != "uptime"
    requires forall i :: 0 <= i < |cs| ==> Apart(cs[i].path, q)
    ensures Neat(Build(uptime, cs)) && Accepts(Build(uptime, cs), q)
  {
    hide Apart, Proper, Accepts;
    if cs == [] {
      RootIs(uptime, q, 0);
      AcceptsNew(Root(uptime), q);
    } else {
      var n := |cs| - 1;
      assert forall i :: 0 <= i < n ==> cs[..n][i] == cs[i];
      StillAccepted(uptime, cs[..n], q);
      StillAccepted(uptime, cs[..n], cs[n].path);
      AcceptsKept(Build(uptime, cs[..n]), cs[n].path, cs[n].value, q);
      InsertNeat(Build(uptime, cs[..n]), cs[n].path, cs[n].value);
    }
  }

  lemma {:induction false} AllFound(uptime: nat, cs: seq<Counter>)
    requires Consistent(cs)
    ensures Found(uptime, cs) && Value(Build(uptime, cs))
  {
    if cs == [] {
      forall q, x ensures Lookup(Root(uptime), q) == [Num(x)] ==> q == [Plain("uptime")] && x == uptime { RootIs(uptime, q, x); }
      RootIs(uptime, [], 0);
      RootTidy(uptime);
    } else {
      var n := |cs| - 1;
      AllFound(uptime, cs[..n]);
      StillAccepted(uptime, cs[..n], cs[n].path);
      FoundMore(uptime, cs);
      hide Insert, Accepts, Apart, Proper;
      BuildIsObject(uptime, cs[..n]);
      InsertTidy(Build(uptime, cs[..n]), cs[n].path, cs[n].value);
    }
  }

  lemma RootTidy(uptime: nat)
    ensures Value(Root(uptime))
  {
    assert Value(Num(uptime));
    assert "uptime" in Root(uptime).fields;
  }

  lemma BuildIsObject(uptime: nat, cs: seq<Counter>)
    requires Consistent(cs)
    ensures Build(uptime, cs).Obj?
  {
    if cs != [] { InsertIsNoString(Build(uptime, cs[..|cs| - 1]), cs[|cs| - 1].path, cs[|cs| - 1].value); }
  }

  /** What is looked up stands somewhere. */
  lemma {:induction false} LookupHasPlace(t: Json, q: seq<Segment>, x: Json) returns (hops: seq<Hop>)
    requires Lookup(t, q) == [x]
    ensures Names(t, hops, q) && At(t, hops) == [x]
    decreases |q|
  {
    hops := [];
    if q != [] {
      var rest := LookupHasPlace(Child(t, q[0]), q[1..], x);
      match q[0]
      case Plain(tag) =>
        hops := [Key(tag)] + rest;
        assert hops[1..] == rest;
      case Tagged(tag, arg, value) =>
        var i := Find(Items(t, tag), arg, value);
        hops := [Key(tag), Index(i)] + rest;
        assert hops[1..] == [Index(i)] + rest && hops[1..][1..] == rest && hops[2..] == rest;
    }
  }

  /** Every counter stands at one place, under its own name, with its own value, whatever the
      order of insertion; the only other leaves are the tags of items and the uptime. */
  lemma TreeAgrees(uptime: nat, cs: seq<Counter>)
    requires Consistent(cs)
    ensures Agrees(uptime, cs)
  {
    hide Value, Found, Build, Listed, OnlyKnown, Consistent;
    AllFound(uptime, cs);
    BuildIsObject(uptime, cs);
    AllListed(uptime, cs);
    AllLeavesKnown(uptime, cs);
  }

  lemma AllListed(uptime: nat, cs: seq<Counter>)
    requires Found(uptime, cs)
    ensures Listed(Build(uptime, cs), cs)
  {
    hide Lookup, Build, Neat, Placed;
    forall i | 0 <= i < |cs| ensures Placed(Build(uptime, cs), cs[i]) { HasPlace(Build(uptime, cs), cs[i]); }
  }

  lemma AllLeavesKnown(uptime: nat, cs: seq<Counter>)
    requires Found(uptime, cs) && Value(Build(uptime, cs)) && Build(uptime, cs).Obj?
    ensures OnlyKnown(uptime, cs, Build(uptime, cs))
  {
    hide Found, Value, Build, Known, At;
    var j := Build(uptime, cs);
    forall hops, x | At(j, hops) == [x] && Leaf(x) ensures Known(uptime, cs, j, hops, x) {
      LeafKnown(uptime, cs, hops, x);
    }
  }

  lemma HasPlace(j: Json, c: Counter)
    requires Lookup(j, c.path) == [Num(c.value)]
    ensures Placed(j, c)
  {
    var hops := LookupHasPlace(j, c.path, Num(c.value));
    assert IsAt(j, hops, c);
  }

  lemma LeafKnown(uptime: nat, cs: seq<Counter>, hops: seq<Hop>, x: Json)
    requires Found(uptime, cs) && Value(Build(uptime, cs)) && Build(uptime, cs).Obj?
    requires At(Build(uptime, cs), hops) == [x] && Leaf(x)
    ensures Known(uptime, cs, Build(uptime, cs), hops, x)
  {
    var j := Build(uptime, cs);
    assert !Item(j);
    hide Value, Item, At, Lookup, Build, Neat, TagPlace;
    var q := LeafIsNamed(j, hops, x);
    if x.Num? {
      NameIsLookup(j, hops, q);
      if q == [Plain("uptime")] && x.n == uptime {
        assert hops == [hops[0]] + hops[1..];
      } else {
        var i :| 0 <= i < |cs| && cs[i] == Counter(q, x.n);
        assert IsAt(j, hops, cs[i]);
      }
    }
  }

  /** No place in the document has two names' values: a name leads to one place only. */
  lemma OnePlaceEach(uptime: nat, cs: seq<Counter>, h1: seq<Hop>, h2: seq<Hop>, q: seq<Segment>)
    requires Consistent(cs) && Names(Build(uptime, cs), h1, q) && Names(Build(uptime, cs), h2, q)
    ensures h1 == h2
  {
    AllFound(uptime, cs);
    OnePlace(Build(uptime, cs), h1, h2, q);
  }

  lemma FoundMore(uptime: nat, cs: seq<Counter>)
    requires Consistent(cs) && cs != [] && Found(uptime, cs[..|cs| - 1])
    requires Accepts(Build(uptime, cs[..|cs| - 1]), cs[|cs| - 1].path)
    ensures Found(uptime, cs)
  {
    hide Apart, Proper, Accepts, Neat, Lookup, Insert;
    var n := |cs| - 1;
    var t, p, v := Build(uptime, cs[..n]), cs[n].path, cs[n].value;
    InsertNeat(t, p, v);
    forall i | 0 <= i < |cs| ensures Lookup(Insert(t, p, v), cs[i].path) == [Num(cs[i].value)] {
      if i == n { LookupInserted(t, p, v); }
      else {
        assert cs[..n][i] == cs[i];
        LookupKept(t, p, v, cs[i].path, cs[i].value);
      }
    }
    forall q, x | Lookup(Insert(t, p, v), q) == [Num(x)] 
      ensures (q == [Plain("uptime")] && x == uptime) || Counter(q, x) in cs
    {
      NothingElse(t, p, v, q, x);
      if q == p && x == v { assert cs[n] == Counter(q, x); }
    }
  }

  // ---- the program ----

  /** The loop over the items of an array: the first with the tag, if any. */
  method FindItem(items: seq<Json>, arg: string, value: string) returns (k: nat)
    ensures k == Find(items, arg, value)
  {
    k := 0;
    while k < |items| && !HasTag(items[k], arg, value)
      invariant k <= |items| && Find(items, arg, value) == k + Find(items[k..], arg, value)
    {
      assert items[k..][1..] == items[k + 1..];
      k := k + 1;
    }
  }

  /** The nodes the pointer has come down through, and which way it went. */
  datatype Crumb = Crumb(node: Json, segment: Segment)

  function Climb(crumbs: seq<Crumb>, t: Json): Json {
    if crumbs == [] then t
    else
      var c := crumbs[|crumbs| - 1];
      Climb(crumbs[..|crumbs| - 1], SetChild(c.node, c.segment, t))
  }

  /** Puts one counter in place: down along the name, then the assignment. */
  method InsertCounter(t: Json, path: seq<Segment>, v: nat) returns (r: Json)
    requires Walks(t, path)
    ensures r == Insert(t, path, v)
  {
    hide SetChild, StepOk;
    var tmp, crumbs: seq<Crumb> := t, [];
    for i := 0 to |path|
      invariant Walks(tmp, path[i..])
      invariant Climb(crumbs, Insert(tmp, path[i..], v)) == Insert(t, path, v)
    {
      assert path[i..][0] == path[i] && path[i..][1..] == path[i + 1..];
      var below;
      match path[i] {
        case Plain(tag) =>
          below := if tag in Fields(tmp) then Fields(tmp)[tag] else Null;
        case Tagged(tag, arg, value) =>
          var items := Items(tmp, tag);
          var k := FindItem(items, arg, value);
          below := if k < |items| then items[k] else Obj(map[arg := Str(value)]);
      }
      var crumb := Crumb(tmp, path[i]);
      assert (crumbs + [crumb])[..|crumbs|] == crumbs;
      crumbs := crumbs + [crumb];
      tmp := below;
    }
    tmp := Num(v);
    while crumbs != []
      invariant Climb(crumbs, tmp) == Insert(t, path, v)
      decreases |crumbs|
    {
      var c := crumbs[|crumbs| - 1];
      tmp := SetChild(c.node, c.segment, tmp);
      crumbs := crumbs[..|crumbs| - 1];
    }
    r := tmp;
  }
}
