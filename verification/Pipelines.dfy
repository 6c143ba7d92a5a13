/**
 The named pipeline of channel/pipeline.go: a Go slice (backing array, length, capacity) edited in
 place, proved to implement edits of a sequence of uniquely named handlers.
 */
module Pipelines {
  import opened Bytes
  import opened Decoders
  import opened Encoders
  import opened RoundTrips

  /** A handler value: what a type assertion to Decoder or Encoder finds in it. */
  datatype Component = Component(decoder: Option<Decoder>, encoder: Option<Encoder>, id: int)
  {
    predicate IsCodec() { decoder.Some? || encoder.Some? }
  }

  datatype Named = Named(name: string, handler: Component)

  // ----- Edits of the sequence -----

  datatype Edit =
    | AddFirst(added: Named)
    | AddLast(added: Named)
    | AddBefore(base: string, added: Named)
    | AddAfter(base: string, added: Named)
    | Replace(base: string, added: Named)
    | Remove(base: string)

  ghost predicate Unique(v: seq<Named>) {
    forall i, j :: 0 <= i < j < |v| ==> v[i].name != v[j].name
  }

  /** The index of the handler of this name, or -1. */
  function IndexOf(v: seq<Named>, name: string): (r: int)
    ensures -1 <= r < |v|
    ensures r >= 0 ==> v[r].name == name
    ensures forall i :: 0 <= i < (if r < 0 then |v| else r) ==> v[i].name != name
  {
    if v == [] then -1
    else if v[0].name == name then 0
    else
      var r := IndexOf(v[1..], name);
      assert forall i :: 1 <= i < |v| ==> v[i] == v[1..][i - 1];
      if r < 0 then -1 else r + 1
  }

  function Insert(v: seq<Named>, i: nat, x: Named): seq<Named>
    requires i <= |v|
  {
    v[..i] + [x] + v[i..]
  }

  function Without(v: seq<Named>, i: nat): seq<Named>
    requires i < |v|
  {
    v[..i] + v[i + 1..]
  }

  /** The sequence after an edit; None where the source panics and leaves it as it was. */
  function Apply(v: seq<Named>, e: Edit): Option<seq<Named>> {
    if e.Remove? then
      var i := IndexOf(v, e.base);
      Some(if i < 0 then v else Without(v, i))
    else if e.Replace? then
      var i := IndexOf(v, e.base);
      if i < 0 || (e.base != e.added.name && IndexOf(v, e.added.name) >= 0) then None
      else Some(v[i := e.added])
    else if IndexOf(v, e.added.name) >= 0 then None
    else
      match e
      case AddFirst(x) => Some(Insert(v, 0, x))
      case AddLast(x) => Some(Insert(v, |v|, x))
      case AddBefore(b, x) => if IndexOf(v, b) < 0 then None else Some(Insert(v, IndexOf(v, b), x))
      case AddAfter(b, x) => if IndexOf(v, b) < 0 then None else Some(Insert(v, IndexOf(v, b) + 1, x))
  }

  function Perform(v: seq<Named>, e: Edit): seq<Named> {
    match Apply(v, e) case Some(v') => v' case None => v
  }

  function PerformAll(v: seq<Named>, es: seq<Edit>): seq<Named>
    decreases |es|
  {
    if es == [] then v else PerformAll(Perform(v, es[0]), es[1..])
  }

  // ----- The slice -----

  class Pipeline {
    var slots: array<Named>   // the backing array: its length is the slice's capacity
    var len: nat

    ghost predicate Valid()
      reads this, slots
    {
      len <= slots.Length && Unique(slots[..len])
    }

    function View(): seq<Named>
      requires len <= slots.Length
      reads this, slots
    {
      slots[..len]
    }

    constructor ()
      ensures Valid() && fresh(slots) && View() == []
    {
      slots := new Named[0];
      len := 0;
    }

    /** p.handlers = append(p.handlers[:at], tail...): in place while the capacity suffices. */
    method AppendAt(at: nat, tail: seq<Named>)
      requires at <= len <= slots.Length && tail != []
      modifies this, slots
      ensures len == at + |tail| <= slots.Length
      ensures slots == old(slots) || fresh(slots)
      ensures View() == old(View())[..at] + tail
    {
      if at + |tail| > slots.Length {
        var extra: nat :| true;
        var bigger := new Named[at + |tail| + extra](_ => tail[0]);
        forall i | 0 <= i < at {
          bigger[i] := slots[i];
        }
        slots := bigger;
      }
      forall i | 0 <= i < |tail| {
        slots[at + i] := tail[i];
      }
      len := at + |tail|;
    }

    /** The append idiom that opens slot i: the tail is copied aside and written one to the right. */
    method InsertAt(i: nat, x: Named)
      requires Valid() && i <= len && IndexOf(View(), x.name) < 0
      modifies this, slots
      ensures Valid() && (slots == old(slots) || fresh(slots))
      ensures View() == Insert(old(View()), i, x)
    {
      ghost var v := View();
      InsertKeepsUnique(v, i, x);
      AppendAt(i, [x] + slots[i..len]);
      assert View() == Insert(v, i, x);
    }

    /** The append idiom that closes slot i: copy shifts the tail left inside the backing array. */
    method CloseSlot(i: nat)
      requires Valid() && i < len
      modifies this`len, slots
      ensures Valid() && View() == Without(old(View()), i)
    {
      ghost var v := View();
      WithoutKeepsUnique(v, i);
      var k := i;
      while k < len - 1
        invariant i <= k <= len - 1 && len == |v| <= slots.Length && slots == old(slots)
        invariant forall j :: 0 <= j < k ==> slots[j] == Without(v, i)[j]
        invariant forall j :: k <= j < len ==> slots[j] == v[j]
      {
        slots[k] := slots[k + 1];
        k := k + 1;
      }
      len := len - 1;
      assert View() == Without(v, i);
    }

    method FindIndex(name: string) returns (r: int)
      requires len <= slots.Length
      ensures r == IndexOf(View(), name)
    {
      var i := 0;
      while i < len
        invariant 0 <= i <= len
        invariant forall j :: 0 <= j < i ==> slots[j].name != name
      {
        if slots[i].name == name {
          return i;
        }
        i := i + 1;
      }
      return -1;
    }

    method AddLast(x: Named) returns (ok: bool)
      requires Valid()
      modifies this, slots
      ensures Valid() && (slots == old(slots) || fresh(slots))
      ensures ok == Apply(old(View()), Edit.AddLast(x)).Some?
      ensures View() == Perform(old(View()), Edit.AddLast(x))
    {
      var taken := FindIndex(x.name);
      if taken >= 0 {
        return false;
      }
      InsertAt(len, x);
      return true;
    }

    method AddFirst(x: Named) returns (ok: bool)
      requires Valid()
      modifies this, slots
      ensures Valid() && (slots == old(slots) || fresh(slots))
      ensures ok == Apply(old(View()), Edit.AddFirst(x)).Some?
      ensures View() == Perform(old(View()), Edit.AddFirst(x))
    {
      var taken := FindIndex(x.name);
      if taken >= 0 {
        return false;
      }
      ghost var v := View();
      // append to a new one-element slice, whose capacity never suffices for more
      var extra: nat :| true;
      var front := new Named[1 + len + extra](_ => x);
      forall i | 0 <= i < len {
        front[1 + i] := slots[i];
      }
      slots, len := front, 1 + len;
      InsertKeepsUnique(v, 0, x);
      assert View() == Insert(v, 0, x);
      return true;
    }

    method AddBefore(base: string, x: Named) returns (ok: bool)
      requires Valid()
      modifies this, slots
      ensures Valid() && (slots == old(slots) || fresh(slots))
      ensures ok == Apply(old(View()), Edit.AddBefore(base, x)).Some?
      ensures View() == Perform(old(View()), Edit.AddBefore(base, x))
    {
      var taken := FindIndex(x.name);
      if taken >= 0 {
        return false;
      }
      var idx := FindIndex(base);
      if idx < 0 {
        return false;
      }
      InsertAt(idx, x);
      return true;
    }

    method AddAfter(base: string, x: Named) returns (ok: bool)
      requires Valid()
      modifies this, slots
      ensures Valid() && (slots == old(slots) || fresh(slots))
      ensures ok == Apply(old(View()), Edit.AddAfter(base, x)).Some?
      ensures View() == Perform(old(View()), Edit.AddAfter(base, x))
    {
      var taken := FindIndex(x.name);
      if taken >= 0 {
        return false;
      }
      var idx := FindIndex(base);
      if idx < 0 {
        return false;
      }
      InsertAt(idx + 1, x);
      return true;
    }

    method Replace(base: string, x: Named) returns (ok: bool)
      requires Valid()
      modifies slots
      ensures Valid()
      ensures ok == Apply(old(View()), Edit.Replace(base, x)).Some?
      ensures View() == Perform(old(View()), Edit.Replace(base, x))
    {
      var idx := FindIndex(base);
      if idx < 0 {
        return false;
      }
      if base != x.name {
        var taken := FindIndex(x.name);
        if taken >= 0 {
          return false;
        }
      }
      ghost var v := View();
      slots[idx] := x;
      ReplaceKeepsUnique(v, idx, x);
      assert View() == v[idx := x];
      return true;
    }

    method Remove(name: string) returns (removed: Option<Component>)
      requires Valid()
      modifies this`len, slots
      ensures Valid()
      ensures View() == Perform(old(View()), Edit.Remove(name))
      ensures var i := IndexOf(old(View()), name);
        removed == if i < 0 then None else Some(old(View())[i].handler)
    {
      ghost var v := View();
      var idx := FindIndex(name);
      if idx < 0 {
        return None;
      }
      removed := Some(slots[idx].handler);
      assert slots[idx] == v[idx];
      assert Apply(v, Edit.Remove(name)) == Some(Without(v, idx));
      CloseSlot(idx);
    }

    /** One edit, whichever it is. */
    method Do(e: Edit)
      requires Valid()
      modifies this, slots
      ensures Valid() && (slots == old(slots) || fresh(slots))
      ensures View() == Perform(old(View()), e)
    {
      match e {
        case AddFirst(x) => var ok := AddFirst(x);
        case AddLast(x) => var ok := AddLast(x);
        case AddBefore(b, x) => var ok := AddBefore(b, x);
        case AddAfter(b, x) => var ok := AddAfter(b, x);
        case Replace(b, x) => var ok := Replace(b, x);
        case Remove(b) => var gone := Remove(b);
      }
    }

    /** Decoders and Encoders: the handlers that pass the type assertion, collected in order. */
    method Codecs<T>(find: Component -> Option<T>) returns (found: seq<T>)
      requires Valid()
      ensures found == Collect(View(), find)
    {
      found := [];
      var i := 0;
      while i < len
        invariant 0 <= i <= len
        invariant found == Collect(slots[..i], find)
      {
        assert slots[..i + 1] == slots[..i] + [slots[i]];
        CollectConcat(slots[..i], [slots[i]], find);
        assert [slots[i]][1..] == [];
        match find(slots[i].handler) {
          case Some(x) => found := found + [x];
          case None =>
        }
        i := i + 1;
      }
    }

    method Clone() returns (c: Pipeline)
      requires Valid()
      ensures fresh(c) && fresh(c.slots) && c.Valid() && c.View() == View()
    {
      c := new Pipeline();
      var i := 0;
      while i < len
        invariant 0 <= i <= len && fresh(c) && fresh(c.slots)
        invariant c.len == i <= c.slots.Length && c.View() == slots[..i]
        invariant slots == old(slots) && slots[..] == old(slots[..])
      {
        c.AppendAt(c.len, [slots[i]]);
        i := i + 1;
      }
    }
  }

  /** Edits of a clone realise the edited sequence and never reach the pipeline it came from. */
  method EditClone(p: Pipeline, es: seq<Edit>) returns (c: Pipeline)
    requires p.Valid()
    ensures p.Valid() && p.View() == old(p.View())
    ensures fresh(c) && c.Valid() && c.View() == PerformAll(p.View(), es)
  {
    c := p.Clone();
    var i := 0;
    assert es[0..] == es;
    while i < |es|
      invariant 0 <= i <= |es| && fresh(c) && fresh(c.slots) && c.Valid()
      invariant PerformAll(c.View(), es[i..]) == PerformAll(p.View(), es)
    {
      assert es[i..][1..] == es[i + 1..];
      c.Do(es[i]);
      i := i + 1;
    }
  }

  /** An edit of a clone, or of the pipeline it was cloned from. */
  datatype Turn = Turn(ofClone: bool, edit: Edit)

  /** The edits of one of the two, in their order. */
  function EditsOf(turns: seq<Turn>, ofClone: bool): seq<Edit> {
    if turns == [] then []
    else if turns[0].ofClone == ofClone then [turns[0].edit] + EditsOf(turns[1..], ofClone)
    else EditsOf(turns[1..], ofClone)
  }

  /** What the edits still to come make of one of the two. */
  function Edited(v: seq<Named>, turns: seq<Turn>, ofClone: bool): seq<Named> {
    PerformAll(v, EditsOf(turns, ofClone))
  }

  lemma {:induction false} EditedCons(v: seq<Named>, turns: seq<Turn>, ofClone: bool)
    requires turns != []
    ensures Edited(v, turns, ofClone) ==
      Edited(if turns[0].ofClone == ofClone then Perform(v, turns[0].edit) else v, turns[1..], ofClone)
  {
    if turns[0].ofClone == ofClone {
      var rest := EditsOf(turns[1..], ofClone);
      assert ([turns[0].edit] + rest)[1..] == rest;
    }
  }

  /** The first of these turns. */
  method EditOne(p: Pipeline, c: Pipeline, turns: seq<Turn>)
    requires p.Valid() && c.Valid() && p != c && p.slots != c.slots && turns != []
    modifies p, c, p.slots, c.slots
    ensures p.Valid() && c.Valid() && p.slots != c.slots
    ensures (p.slots == old(p.slots) || fresh(p.slots)) && (c.slots == old(c.slots) || fresh(c.slots))
    ensures Edited(p.View(), turns[1..], false) == Edited(old(p.View()), turns, false)
    ensures Edited(c.View(), turns[1..], true) == Edited(old(c.View()), turns, true)
  {
    EditedCons(p.View(), turns, false);
    EditedCons(c.View(), turns, true);
    if turns[0].ofClone {
      c.Do(turns[0].edit);
    } else {
      p.Do(turns[0].edit);
    }
  }

  /** However edits of a pipeline and of its clone alternate, each sees its own and no others. */
  method EditBoth(p: Pipeline, turns: seq<Turn>) returns (c: Pipeline)
    requires p.Valid()
    modifies p, p.slots
    ensures p.Valid() && p.View() == PerformAll(old(p.View()), EditsOf(turns, false))
    ensures fresh(c) && c.Valid() && c.View() == PerformAll(old(p.View()), EditsOf(turns, true))
  {
    ghost var mine, its := Edited(p.View(), turns, false), Edited(p.View(), turns, true);
    c := p.Clone();
    var rest := turns;
    while rest != []
      invariant p.Valid() && c.Valid() && fresh(c) && fresh(c.slots) && c.slots != p.slots
      invariant p.slots == old(p.slots) || fresh(p.slots)
      invariant Edited(c.View(), rest, true) == its && Edited(p.View(), rest, false) == mine
      decreases |rest|
    {
      EditOne(p, c, rest);
      rest := rest[1..];
    }
  }

  // ----- Names stay unique -----

  lemma {:induction false} InsertKeepsUnique(v: seq<Named>, i: nat, x: Named)
    requires Unique(v) && i <= |v| && IndexOf(v, x.name) < 0
    ensures Unique(Insert(v, i, x))
  {}

  lemma {:induction false} ReplaceKeepsUnique(v: seq<Named>, i: nat, x: Named)
    requires Unique(v) && i < |v| && (x.name == v[i].name || IndexOf(v, x.name) < 0)
    ensures Unique(v[i := x])
  {}

  lemma {:induction false} WithoutKeepsUnique(v: seq<Named>, i: nat)
    requires Unique(v) && i < |v|
    ensures Unique(Without(v, i))
  {}

  lemma {:induction false} PerformKeepsUnique(v: seq<Named>, e: Edit)
    requires Unique(v)
    ensures Unique(Perform(v, e))
  {
    if Apply(v, e).Some? {
      match e
      case AddFirst(x) => InsertKeepsUnique(v, 0, x);
      case AddLast(x) => InsertKeepsUnique(v, |v|, x);
      case AddBefore(b, x) => InsertKeepsUnique(v, IndexOf(v, b), x);
      case AddAfter(b, x) => InsertKeepsUnique(v, IndexOf(v, b) + 1, x);
      case Replace(b, x) => ReplaceKeepsUnique(v, IndexOf(v, b), x);
      case Remove(b) => if IndexOf(v, b) >= 0 { WithoutKeepsUnique(v, IndexOf(v, b)); }
    }
  }

  // ----- What an edit means -----

  predicate Has(v: seq<Named>, name: string) {
    exists i :: 0 <= i < |v| && v[i].name == name
  }

  /**
   An edit goes through, without a panic, exactly if the handler it names is there, Remove excepted,
   and the name it adds is free, or that of the very handler it replaces.
   */
  lemma {:induction false} AppliesIff(v: seq<Named>, e: Edit)
    ensures Apply(v, e).Some? <==>
      match e
      case AddFirst(x) => !Has(v, x.name)
      case AddLast(x) => !Has(v, x.name)
      case AddBefore(b, x) => Has(v, b) && !Has(v, x.name)
      case AddAfter(b, x) => Has(v, b) && !Has(v, x.name)
      case Replace(b, x) => Has(v, b) && (x.name == b || !Has(v, x.name))
      case Remove(_) => true
  {
    forall name: string ensures IndexOf(v, name) >= 0 <==> Has(v, name) {}
  }

  /** Remove takes out the handler of that name, and nothing when there is none. */
  lemma {:induction false} RemovesExactly(v: seq<Named>, name: string)
    requires Unique(v)
    ensures !Has(Perform(v, Remove(name)), name)
    ensures !Has(v, name) ==> Perform(v, Remove(name)) == v
    ensures forall i :: 0 <= i < |v| && v[i].name == name ==> Perform(v, Remove(name)) == v[..i] + v[i + 1..]
  {
    var k := IndexOf(v, name);
    if k >= 0 {
      WithoutKeepsUnique(v, k);
      assert forall i :: 0 <= i < |v| && v[i].name == name ==> i == k;
    }
  }

  lemma {:induction false} UniqueIndex(v: seq<Named>, i: nat)
    requires Unique(v) && i < |v|
    ensures IndexOf(v, v[i].name) == i
  {}

  lemma {:induction false} RemoveInserted(v: seq<Named>, i: nat, x: Named)
    requires i <= |v| && Unique(Insert(v, i, x))
    ensures Perform(Insert(v, i, x), Remove(x.name)) == v
  {
    var v' := Insert(v, i, x);
    assert v'[i] == x;
    UniqueIndex(v', i);
    assert Without(v', i) == v;
  }

  /** Removing what was just added restores the pipeline. */
  lemma {:induction false} RemoveUndoesAdd(v: seq<Named>, e: Edit)
    requires Unique(v) && !e.Remove? && !e.Replace? && Apply(v, e).Some?
    ensures Perform(Perform(v, e), Remove(e.added.name)) == v
  {
    var v' := Perform(v, e);
    PerformKeepsUnique(v, e);
    var i := match e
      case AddFirst(_) => 0
      case AddLast(_) => |v|
      case AddBefore(b, _) => IndexOf(v, b)
      case AddAfter(b, _) => IndexOf(v, b) + 1;
    assert v' == Insert(v, i, e.added);
    RemoveInserted(v, i, e.added);
  }

  /** An added handler stands where its edit says, next to the handler it names. */
  lemma {:induction false} AddedStandsWhereAsked(v: seq<Named>, e: Edit)
    requires Unique(v) && !e.Remove? && Apply(v, e).Some?
    ensures var v' := Perform(v, e); var i := IndexOf(v', e.added.name);
      && i >= 0 && v'[i] == e.added
      && match e
         case AddFirst(_) => i == 0
         case AddLast(_) => i == |v'| - 1
         case AddBefore(b, _) => IndexOf(v', b) == i + 1
         case AddAfter(b, _) => IndexOf(v', b) == i - 1
         case Replace(b, _) =>
           i == IndexOf(v, b) && |v'| == |v| && forall j :: 0 <= j < |v| && j != i ==> v'[j] == v[j]
  {
    var v' := Perform(v, e);
    PerformKeepsUnique(v, e);
    match e
    case AddFirst(x) => UniqueIndex(v', 0);
    case AddLast(x) => UniqueIndex(v', |v|);
    case AddBefore(b, x) =>
      UniqueIndex(v', IndexOf(v, b));
      UniqueIndex(v', IndexOf(v, b) + 1);
    case AddAfter(b, x) =>
      UniqueIndex(v', IndexOf(v, b) + 1);
      UniqueIndex(v', IndexOf(v, b));
    case Replace(b, x) => UniqueIndex(v', IndexOf(v, b));
  }

  // ----- The codecs of a pipeline -----

  function DecoderIn(c: Component): Option<Decoder> { c.decoder }

  function EncoderIn(c: Component): Option<Encoder> { c.encoder }

  /** What a type assertion finds in the handlers, in their order. */
  function Collect<T>(v: seq<Named>, find: Component -> Option<T>): seq<T> {
    if v == [] then []
    else
      match find(v[0].handler)
      case Some(x) => [x] + Collect(v[1..], find)
      case None => Collect(v[1..], find)
  }

  function DecodersOf(v: seq<Named>): seq<Decoder> { Collect(v, DecoderIn) }

  function EncodersOf(v: seq<Named>): seq<Encoder> { Collect(v, EncoderIn) }

  lemma {:induction false} CollectConcat<T>(v: seq<Named>, w: seq<Named>, find: Component -> Option<T>)
    ensures Collect(v + w, find) == Collect(v, find) + Collect(w, find)
  {
    if v == [] {
      assert v + w == w;
    } else {
      assert (v + w)[1..] == v[1..] + w;
      CollectConcat(v[1..], w, find);
    }
  }

  lemma {:induction false} CodecsOfConcat(v: seq<Named>, w: seq<Named>)
    ensures DecodersOf(v + w) == DecodersOf(v) + DecodersOf(w)
    ensures EncodersOf(v + w) == EncodersOf(v) + EncodersOf(w)
  {
    CollectConcat(v, w, DecoderIn);
    CollectConcat(v, w, EncoderIn);
  }

  lemma {:induction false} CollectOne(x: Named)
    ensures DecodersOf([x]) == if x.handler.decoder.Some? then [x.handler.decoder.value] else []
    ensures EncodersOf([x]) == if x.handler.encoder.Some? then [x.handler.encoder.value] else []
  {
    assert [x][1..] == [];
    assert DecoderIn(x.handler) == x.handler.decoder && EncoderIn(x.handler) == x.handler.encoder;
    assert Collect([], DecoderIn) == [] && Collect([], EncoderIn) == [];
  }

  ghost predicate SameCodecs(v: seq<Named>, w: seq<Named>) {
    DecodersOf(v) == DecodersOf(w) && EncodersOf(v) == EncodersOf(w)
  }

  lemma {:induction false} InsertKeepsCodecs(v: seq<Named>, i: nat, x: Named)
    requires i <= |v| && !x.handler.IsCodec()
    ensures SameCodecs(Insert(v, i, x), v)
  {
    CollectOne(x);
    CodecsOfConcat(v[..i] + [x], v[i..]);
    CodecsOfConcat(v[..i], [x]);
    CodecsOfConcat(v[..i], v[i..]);
    assert v[..i] + v[i..] == v;
  }

  lemma {:induction false} WithoutKeepsCodecs(v: seq<Named>, i: nat)
    requires i < |v| && !v[i].handler.IsCodec()
    ensures SameCodecs(Without(v, i), v)
  {
    assert Insert(Without(v, i), i, v[i]) == v;
    InsertKeepsCodecs(Without(v, i), i, v[i]);
  }

  /** The edit adds no codec and takes none away. */
  predicate SparesCodecs(v: seq<Named>, e: Edit) {
    && (!e.Remove? ==> !e.added.handler.IsCodec())
    && (e.Remove? || e.Replace? ==>
          IndexOf(v, e.base) < 0 || !v[IndexOf(v, e.base)].handler.IsCodec())
  }

  lemma {:induction false} PerformKeepsCodecs(v: seq<Named>, e: Edit)
    requires SparesCodecs(v, e)
    ensures SameCodecs(Perform(v, e), v)
  {
    if Apply(v, e).Some? {
      match e
      case AddFirst(x) => InsertKeepsCodecs(v, 0, x);
      case AddLast(x) => InsertKeepsCodecs(v, |v|, x);
      case AddBefore(b, x) => InsertKeepsCodecs(v, IndexOf(v, b), x);
      case AddAfter(b, x) => InsertKeepsCodecs(v, IndexOf(v, b) + 1, x);
      case Remove(b) => if IndexOf(v, b) >= 0 { WithoutKeepsCodecs(v, IndexOf(v, b)); }
      case Replace(b, x) =>
        var i := IndexOf(v, b);
        WithoutKeepsCodecs(v, i);
        InsertKeepsCodecs(Without(v, i), i, x);
        assert v[i := x] == Insert(Without(v, i), i, x);
    }
  }

  /** Every edit of a run, at its turn, spares the codecs. */
  ghost predicate AllSpareCodecs(v: seq<Named>, es: seq<Edit>)
    decreases |es|
  {
    es != [] ==> SparesCodecs(v, es[0]) && AllSpareCodecs(Perform(v, es[0]), es[1..])
  }

  /** Over any run of edits names stay unique, and the codecs stay when only others are edited. */
  lemma {:induction false} RunOfEdits(v: seq<Named>, es: seq<Edit>)
    requires Unique(v)
    ensures Unique(PerformAll(v, es))
    ensures AllSpareCodecs(v, es) ==> SameCodecs(PerformAll(v, es), v)
    decreases |es|
  {
    if es != [] {
      PerformKeepsUnique(v, es[0]);
      RunOfEdits(Perform(v, es[0]), es[1..]);
      if SparesCodecs(v, es[0]) {
        PerformKeepsCodecs(v, es[0]);
      }
    }
  }

  // ----- The request-response layout -----

  const FRAME_DECODER := Component(Some(LengthField(Prepended(MAX_FRAME, 4, false))), None, 0)
  const MSG_DECODER := Component(Some(MessageDecoder), None, 1)
  const FRAME_ENCODER := Component(None, Some(LengthFieldEncoder(4, false)), 2)
  const MSG_ENCODER := Component(None, Some(MessageEncoder), 3)
  const RESPONSE_HANDLER := Component(None, None, 4)

  const LAYOUT_HANDLERS: seq<Named> := [
    Named("FRAME_DECODER", FRAME_DECODER), Named("MSG_DECODER", MSG_DECODER),
    Named("FRAME_ENCODER", FRAME_ENCODER), Named("MSG_ENCODER", MSG_ENCODER),
    Named("RESPONSE_HANDLER", RESPONSE_HANDLER)]

  function AddAll(xs: seq<Named>): (es: seq<Edit>)
    ensures |es| == |xs|
  {
    if xs == [] then [] else [AddLast(xs[0])] + AddAll(xs[1..])
  }

  lemma {:induction false} AddAllAppends(v: seq<Named>, xs: seq<Named>)
    requires Unique(v + xs)
    ensures PerformAll(v, AddAll(xs)) == v + xs
    decreases |xs|
  {
    if xs == [] {
      assert v + xs == v;
    } else {
      forall i | 0 <= i < |v| ensures v[i].name != xs[0].name {
        assert (v + xs)[i] == v[i] && (v + xs)[|v|] == xs[0];
      }
      assert IndexOf(v, xs[0].name) < 0;
      assert Perform(v, AddLast(xs[0])) == v + [xs[0]];
      assert v + [xs[0]] + xs[1..] == v + xs;
      AddAllAppends(v + [xs[0]], xs[1..]);
    }
  }

  lemma {:induction false} FiveNames()
    ensures Unique(LAYOUT_HANDLERS)
  {
    assert LAYOUT_HANDLERS[0].name[6] == 'D' && LAYOUT_HANDLERS[2].name[6] == 'E';
    assert LAYOUT_HANDLERS[1].name[4] == 'D' && LAYOUT_HANDLERS[3].name[4] == 'E';
  }

  lemma {:induction false} CodecsCons(x: Named, v: seq<Named>)
    ensures DecodersOf([x] + v)
         == (if x.handler.decoder.Some? then [x.handler.decoder.value] else []) + DecodersOf(v)
    ensures EncodersOf([x] + v)
         == (if x.handler.encoder.Some? then [x.handler.encoder.value] else []) + EncodersOf(v)
  {
    CollectOne(x);
    CodecsOfConcat([x], v);
  }

  /** The codecs of the layout, from its last handler to its first. */
  lemma {:induction false} LayoutCodecs(xs: seq<Named>)
    requires xs == LAYOUT_HANDLERS
    ensures DecodersOf(xs) == [xs[0].handler.decoder.value, xs[1].handler.decoder.value]
    ensures EncodersOf(xs) == [xs[2].handler.encoder.value, xs[3].handler.encoder.value]
  {
    var r4, r3, r2, r1 := xs[4..], xs[3..], xs[2..], xs[1..];
    assert r4 == [xs[4]] && r3 == [xs[3]] + r4 && r2 == [xs[2]] + r3 && r1 == [xs[1]] + r2 && xs == [xs[0]] + r1;
    CollectOne(xs[4]);
    CodecsCons(xs[3], r4);
    CodecsCons(xs[2], r3);
    CodecsCons(xs[1], r2);
    CodecsCons(xs[0], r1);
  }

  /** The pipeline built by NewRequestResponseServer decodes and encodes with the proved stack. */
  lemma {:induction false} LayoutIsStack()
    ensures var v := PerformAll([], AddAll(LAYOUT_HANDLERS));
      DecodersOf(v) == STACK_DECODERS && EncodersOf(v) == STACK_ENCODERS
  {
    FiveNames();
    assert [] + LAYOUT_HANDLERS == LAYOUT_HANDLERS;
    AddAllAppends([], LAYOUT_HANDLERS);
    LayoutCodecs(LAYOUT_HANDLERS);
  }
}
