/**
 * LayoutUtils: looking into memory layouts.
 *
 * A struct's fields are its named members, where an unnamed member that is itself a
 * group (an anonymous struct or union) contributes its own fields in its place and
 * any other unnamed member (padding) contributes nothing. A layout's dimension is the
 * number of sequence layouts wrapped around its innermost element.
 */
module LayoutUtils {
  import opened Wrappers
  import opened Layouts

  /** expandAnonymousMembers(layout) */
  function ExpandAnonymous(l: MemoryLayout): seq<MemoryLayout>
    decreases l, 1
  {
    if l.name.None? then
      if l.GroupLayout? then FlattenMembers(l.members) else []
    else [l]
  }

  /** The members, each expanded, in order. */
  function FlattenMembers(ms: seq<MemoryLayout>): seq<MemoryLayout>
    decreases ms, 0
  {
    if ms == [] then [] else ExpandAnonymous(ms[0]) + FlattenMembers(ms[1..])
  }

  /** flattenGroupLayout(group) */
  function FlattenGroupLayout(g: MemoryLayout): seq<MemoryLayout>
    requires g.GroupLayout?
  {
    FlattenMembers(g.members)
  }

  predicate AllNamed(ls: seq<MemoryLayout>)
  {
    forall i :: 0 <= i < |ls| ==> ls[i].name.Some?
  }

  /** The first layout with the given name. */
  function FirstNamed(ls: seq<MemoryLayout>, name: string): (r: Option<MemoryLayout>)
    ensures r.Some? ==> r.value in ls && r.value.name == Some(name)
    ensures r.None? ==> forall i :: 0 <= i < |ls| ==> ls[i].name != Some(name)
  {
    if ls == [] then None
    else if ls[0].name == Some(name) then Some(ls[0])
    else FirstNamed(ls[1..], name)
  }

  /** getFieldLayout(group, name): a field with that name, or NoSuchElementException. */
  function GetFieldLayout(g: MemoryLayout, name: string): (r: Result<MemoryLayout>)
    requires g.GroupLayout?
    ensures r.Ok? ==> r.value in FlattenGroupLayout(g) && r.value.name == Some(name)
    ensures r.Err? <==> forall i :: 0 <= i < |FlattenGroupLayout(g)| ==> FlattenGroupLayout(g)[i].name != Some(name)
    ensures r.Err? ==> r.error == NoSuchElementException
  {
    match FirstNamed(FlattenGroupLayout(g), name)
    case Some(l) => Ok(l)
    case None => Err(NoSuchElementException)
  }

  // ---- dimension ----

  /** The number of sequence layouts around the innermost element. */
  function Depth(l: MemoryLayout): nat
  {
    if l.SequenceLayout? then 1 + Depth(l.element) else 0
  }

  /** The innermost layout that is not a sequence. */
  function Innermost(l: MemoryLayout): (r: MemoryLayout)
    ensures !r.SequenceLayout?
  {
    if l.SequenceLayout? then Innermost(l.element) else l
  }

  /** What each sequence wrapper carries besides its element: its count and its name. */
  datatype Wrapper = Wrapper(count: Option<nat>, name: Option<string>)

  /** The sequence wrappers, outermost first. */
  function SequenceWrappers(l: MemoryLayout): seq<Wrapper>
  {
    if l.SequenceLayout? then [Wrapper(l.count, l.name)] + SequenceWrappers(l.element) else []
  }

  /** Wraps an element in sequences, the first wrapper outermost. */
  function Rewrap(ws: seq<Wrapper>, el: MemoryLayout): MemoryLayout
  {
    if ws == [] then el else SequenceLayout(ws[0].count, Rewrap(ws[1..], el), ws[0].name)
  }

  /** dimension(layout): the number of nested sequences and the innermost element. */
  method Dimension(layout: MemoryLayout) returns (dimensions: nat, el: MemoryLayout)
    ensures dimensions == Depth(layout) && el == Innermost(layout)
  {
    dimensions := 0;
    el := layout;
    while el.SequenceLayout?
      invariant dimensions + Depth(el) == Depth(layout)
      invariant Innermost(el) == Innermost(layout)
      decreases el
    {
      dimensions := dimensions + 1;
      el := el.element;
    }
  }

  /** The dimension loses nothing: the wrappers around the innermost element give back the layout. */
  lemma {:induction false} DimensionRoundTrip(l: MemoryLayout)
    ensures |SequenceWrappers(l)| == Depth(l)
    ensures Rewrap(SequenceWrappers(l), Innermost(l)) == l
  {
    if l.SequenceLayout? {
      DimensionRoundTrip(l.element);
      assert SequenceWrappers(l)[1..] == SequenceWrappers(l.element);
    }
  }

  /** Wrapping a non-sequence element in n sequences gives a layout of dimension n. */
  lemma {:induction false} RewrapDimension(ws: seq<Wrapper>, el: MemoryLayout)
    requires !el.SequenceLayout?
    ensures Depth(Rewrap(ws, el)) == |ws| && Innermost(Rewrap(ws, el)) == el && SequenceWrappers(Rewrap(ws, el)) == ws
  {
    if ws != [] {
      RewrapDimension(ws[1..], el);
    }
  }

  // ---- isIncomplete ----

  /** isIncomplete(fd): some argument is a sequence of unknown length; the return layout is not looked at. */
  method IsIncomplete(fd: FunctionDescriptor) returns (r: bool)
    ensures r <==> (exists i :: 0 <= i < |fd.argumentLayouts|
                      && fd.argumentLayouts[i].SequenceLayout? && fd.argumentLayouts[i].count.None?)
  {
    var args := fd.argumentLayouts;
    for i := 0 to |args|
      invariant forall j :: 0 <= j < i ==> !(args[j].SequenceLayout? && args[j].count.None?)
    {
      if args[i].SequenceLayout? {
        if args[i].count.None? {
          return true;
        }
      }
    }
    return false;
  }

  // ---- flattening ----

  /** Every field found by flattening has a name. */
  lemma {:induction false} ExpandAllNamed(l: MemoryLayout)
    ensures AllNamed(ExpandAnonymous(l))
    decreases l, 1
  {
    if l.name.None? && l.GroupLayout? {
      FlattenAllNamed(l.members);
    }
  }

  lemma {:induction false} FlattenAllNamed(ms: seq<MemoryLayout>)
    ensures AllNamed(FlattenMembers(ms))
    decreases ms, 0
  {
    if ms != [] {
      ExpandAllNamed(ms[0]);
      FlattenAllNamed(ms[1..]);
    }
  }

  /** Flattening distributes over concatenation of member lists. */
  lemma {:induction false} FlattenAppend(a: seq<MemoryLayout>, b: seq<MemoryLayout>)
    ensures FlattenMembers(a + b) == FlattenMembers(a) + FlattenMembers(b)
  {
    if a == [] {
      assert a + b == b;
    } else {
      assert (a + b)[0] == a[0] && (a + b)[1..] == a[1..] + b;
      FlattenAppend(a[1..], b);
    }
  }

  /** Members that all have names are their own fields. */
  lemma {:induction false} FlattenNamedIdentity(ms: seq<MemoryLayout>)
    requires AllNamed(ms)
    ensures FlattenMembers(ms) == ms
  {
    if ms != [] {
      FlattenNamedIdentity(ms[1..]);
      assert [ms[0]] + ms[1..] == ms;
    }
  }

  /** Flattening is idempotent: the fields of the fields are the fields. */
  lemma FlattenIdempotent(ms: seq<MemoryLayout>)
    ensures FlattenMembers(FlattenMembers(ms)) == FlattenMembers(ms)
  {
    FlattenAllNamed(ms);
    FlattenNamedIdentity(FlattenMembers(ms));
  }

  /** Member `i` contributes its expansion between the fields before it and those after it. */
  lemma FlattenAt(ms: seq<MemoryLayout>, i: nat)
    requires i < |ms|
    ensures FlattenMembers(ms) == FlattenMembers(ms[..i]) + ExpandAnonymous(ms[i]) + FlattenMembers(ms[i + 1..])
  {
    var pre, rest := ms[..i], ms[i..];
    assert ms == pre + rest;
    FlattenAppend(pre, rest);
    assert rest[0] == ms[i] && rest[1..] == ms[i + 1..];
    assert FlattenMembers(rest) == ExpandAnonymous(ms[i]) + FlattenMembers(ms[i + 1..]);
  }

  /** A named member is a field, and its fields come at its place among the others'. */
  lemma NamedMemberIsField(ms: seq<MemoryLayout>, i: nat)
    requires i < |ms| && ms[i].name.Some?
    ensures FlattenMembers(ms) == FlattenMembers(ms[..i]) + [ms[i]] + FlattenMembers(ms[i + 1..])
  {
    FlattenAt(ms, i);
  }

  /** Unnamed padding (and any other unnamed non-group) is dropped. */
  lemma UnnamedLeafDropped(ms: seq<MemoryLayout>, i: nat)
    requires i < |ms| && ms[i].name.None? && !ms[i].GroupLayout?
    ensures FlattenMembers(ms) == FlattenMembers(ms[..i]) + FlattenMembers(ms[i + 1..])
  {
    FlattenAt(ms, i);
    assert FlattenMembers(ms[..i]) + [] == FlattenMembers(ms[..i]);
  }

  /** The fields of an anonymous struct or union take its place. */
  lemma AnonymousGroupInlined(ms: seq<MemoryLayout>, i: nat)
    requires i < |ms| && ms[i].name.None? && ms[i].GroupLayout?
    ensures FlattenMembers(ms) == FlattenMembers(ms[..i]) + FlattenMembers(ms[i].members) + FlattenMembers(ms[i + 1..])
  {
    FlattenAt(ms, i);
  }

  /** A field of an anonymous struct nested in a struct can be found by name in the outer struct. */
  lemma NestedFieldFound(inner: MemoryLayout, outer: MemoryLayout)
    requires inner == GroupLayout(true, [ValueLayout(32, false, 32, "INTEGER", Some("x")), PaddingLayout(32, None)], None)
    requires outer == GroupLayout(true, [ValueLayout(64, false, 64, "INTEGER", Some("a")), inner], Some("s"))
    ensures GetFieldLayout(outer, "x") == Ok(ValueLayout(32, false, 32, "INTEGER", Some("x")))
    ensures GetFieldLayout(outer, "pad") == Err(NoSuchElementException)
  {
    var x := ValueLayout(32, false, 32, "INTEGER", Some("x"));
    var a := ValueLayout(64, false, 64, "INTEGER", Some("a"));
    assert FlattenMembers(inner.members) == [x];
    assert ExpandAnonymous(inner) == [x];
    assert FlattenMembers([inner]) == [x];
    assert outer.members[1..] == [inner];
    assert ExpandAnonymous(a) == [a];
    assert FlattenMembers(outer.members) == ExpandAnonymous(a) + FlattenMembers([inner]);
    assert FlattenGroupLayout(outer) == [a] + [x];
  }
}
