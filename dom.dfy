/**
 * An abstract element store standing in for the page: the page's elements
 * by id, and for each parent the feedback spans appended to it, in order.
 */
module Dom {
  import opened Wrappers

  /** A page element: its tag name, its class list and its parent's handle. */
  datatype Element = Element(nodeName: string, classes: set<string>, parent: Option<string>)

  /** A feedback span: its id, its class list and its inner text (`None` is `undefined`). */
  datatype Span = Span(id: string, classes: set<string>, text: Option<string>)

  /** The whole store, as a value. */
  datatype Store = Store(elements: map<string, Element>, spans: map<string, seq<Span>>)

  /** The ids of a list of spans. */
  function IdsOf(s: seq<Span>): (ids: set<string>)
    ensures forall x :: x in s ==> x.id in ids
  {
    set x | x in s :: x.id
  }

  /** No two spans of the list share an id. */
  predicate NoDupIds(s: seq<Span>) {
    s == [] || (s[0].id !in IdsOf(s[1..]) && NoDupIds(s[1..]))
  }

  /** No span id occurs twice anywhere in the store, as `getElementById` presumes. */
  predicate UniqueSpanIds(spans: map<string, seq<Span>>) {
    && (forall p :: p in spans ==> NoDupIds(spans[p]))
    && (forall p, q :: p in spans && q in spans && p != q ==> IdsOf(spans[p]) !! IdsOf(spans[q]))
  }

  /** No span with this id is anywhere in the store. */
  predicate Absent(spans: map<string, seq<Span>>, id: string) {
    forall p :: p in spans ==> id !in IdsOf(spans[p])
  }

  /** The list with the span of the given id taken out. */
  function Without(s: seq<Span>, id: string): (r: seq<Span>)
    ensures forall x :: x in r <==> x in s && x.id != id
    ensures id !in IdsOf(s) ==> r == s
  {
    if s == [] then []
    else if s[0].id == id then Without(s[1..], id)
    else [s[0]] + Without(s[1..], id)
  }

  lemma {:induction false} WithoutNoDupIds(s: seq<Span>, id: string)
    requires NoDupIds(s)
    ensures NoDupIds(Without(s, id))
  {
    if s != [] {
      WithoutNoDupIds(s[1..], id);
      if s[0].id != id {
        var rest := Without(s[1..], id);
        assert ([s[0]] + rest)[1..] == rest;
      }
    }
  }

  lemma {:induction false} AppendNoDupIds(s: seq<Span>, x: Span)
    requires NoDupIds(s) && x.id !in IdsOf(s)
    ensures NoDupIds(s + [x])
  {
    var t := s + [x];
    if s == [] {
      assert t == [x] && t[1..] == [];
    } else {
      assert t[0] == s[0] && t[1..] == s[1..] + [x];
      assert x.id !in IdsOf(s[1..]) by {
        forall y | y in s[1..] ensures y.id != x.id {
          assert y in s;
        }
      }
      AppendNoDupIds(s[1..], x);
      assert s[0] in s;
      assert s[0].id !in IdsOf(t[1..]) by {
        forall y | y in t[1..] ensures y.id != s[0].id {
          assert y in s[1..] || y == x;
        }
      }
    }
  }

  /** Detaching the span with the given id, wherever it is. */
  function RemoveSpan(spans: map<string, seq<Span>>, id: string): (r: map<string, seq<Span>>)
    ensures r.Keys == spans.Keys
    ensures Absent(r, id)
    ensures forall p, x: Span :: p in spans && x.id != id ==> (x in r[p] <==> x in spans[p])
  {
    map p | p in spans :: Without(spans[p], id)
  }

  lemma RemoveSpanKeepsUnique(spans: map<string, seq<Span>>, id: string)
    requires UniqueSpanIds(spans)
    ensures UniqueSpanIds(RemoveSpan(spans, id))
  {
    var r := RemoveSpan(spans, id);
    forall p | p in r ensures NoDupIds(r[p]) {
      WithoutNoDupIds(spans[p], id);
    }
    forall p, q | p in r && q in r && p != q ensures IdsOf(r[p]) !! IdsOf(r[q]) {
      assert IdsOf(r[p]) <= IdsOf(spans[p]);
      assert IdsOf(r[q]) <= IdsOf(spans[q]);
    }
  }

  /** Detaching an id that is nowhere in the store changes nothing. */
  lemma RemoveAbsentSpan(spans: map<string, seq<Span>>, id: string)
    requires Absent(spans, id)
    ensures RemoveSpan(spans, id) == spans
  {
  }

  /** Detaching one id keeps another id absent. */
  lemma RemoveKeepsAbsent(spans: map<string, seq<Span>>, absent: string, id: string)
    requires Absent(spans, absent)
    ensures Absent(RemoveSpan(spans, id), absent)
  {
    var r := RemoveSpan(spans, id);
    forall p | p in r ensures absent !in IdsOf(r[p]) {
      assert IdsOf(r[p]) <= IdsOf(spans[p]);
    }
  }

  /** The spans currently under a parent (none if it has never had one). */
  function SpansOf(spans: map<string, seq<Span>>, parent: string): seq<Span> {
    if parent in spans then spans[parent] else []
  }

  /** Appending a span as the last feedback child of a parent. */
  function AppendSpan(spans: map<string, seq<Span>>, parent: string, x: Span): (r: map<string, seq<Span>>)
    ensures r.Keys == spans.Keys + {parent}
    ensures r[parent] == SpansOf(spans, parent) + [x]
    ensures forall p :: p in spans && p != parent ==> r[p] == spans[p]
  {
    spans[parent := SpansOf(spans, parent) + [x]]
  }

  /** After an append, an id is absent exactly when it was absent and is not the new span's. */
  lemma AppendSpanAbsent(spans: map<string, seq<Span>>, parent: string, x: Span, id: string)
    ensures Absent(AppendSpan(spans, parent, x), id) <==> Absent(spans, id) && id != x.id
  {
    var r := AppendSpan(spans, parent, x);
    assert x in r[parent];
    assert IdsOf(r[parent]) == IdsOf(SpansOf(spans, parent)) + {x.id};
    if !Absent(spans, id) {
      var q :| q in spans && id in IdsOf(spans[q]);
      if q != parent {
        assert r[q] == spans[q];
      }
    }
  }

  lemma AppendSpanKeepsUnique(spans: map<string, seq<Span>>, parent: string, x: Span)
    requires UniqueSpanIds(spans) && Absent(spans, x.id)
    ensures UniqueSpanIds(AppendSpan(spans, parent, x))
  {
    var r := AppendSpan(spans, parent, x);
    AppendNoDupIds(SpansOf(spans, parent), x);
    assert IdsOf(r[parent]) == IdsOf(SpansOf(spans, parent)) + {x.id};
  }

  /** The element store the page offers: lookups by id, detach, append, class edits. */
  class Document {
    var elements: map<string, Element>
    var spans: map<string, seq<Span>>

    ghost predicate Valid()
      reads this
    {
      UniqueSpanIds(spans)
    }

    ghost function State(): Store
      reads this
    {
      Store(elements, spans)
    }

    constructor (elements: map<string, Element>, spans: map<string, seq<Span>>)
      requires UniqueSpanIds(spans)
      ensures Valid() && State() == Store(elements, spans)
    {
      this.elements := elements;
      this.spans := spans;
    }

    /** `getElementById` over the page's elements: the element with that id, or `null`. */
    function GetElementById(id: string): (r: Option<Element>)
      reads this
      ensures r.Some? <==> id in elements
      ensures r.Some? ==> r.value == elements[id]
    {
      Get(elements, id)
    }

    /** `getElementById(id)?.remove()` for a feedback span. */
    method Remove(id: string)
      requires Valid()
      modifies this
      ensures Valid()
      ensures State() == Store(old(elements), RemoveSpan(old(spans), id))
    {
      RemoveSpanKeepsUnique(spans, id);
      spans := RemoveSpan(spans, id);
    }

    /** `parent.append(x)`, for a span whose id is not yet in use. */
    method Append(parent: string, x: Span)
      requires Valid() && Absent(spans, x.id)
      modifies this
      ensures Valid()
      ensures State() == Store(old(elements), AppendSpan(old(spans), parent, x))
    {
      AppendSpanKeepsUnique(spans, parent, x);
      spans := AppendSpan(spans, parent, x);
    }

    /** `classList.add(...)` on the element with the given id. */
    method AddClasses(id: string, cs: set<string>)
      requires id in elements
      modifies this
      ensures spans == old(spans)
      ensures elements == old(elements)[id := old(elements)[id].(classes := old(elements)[id].classes + cs)]
    {
      elements := elements[id := elements[id].(classes := elements[id].classes + cs)];
    }

    /** `classList.remove(...)` on the element with the given id. */
    method RemoveClasses(id: string, cs: set<string>)
      requires id in elements
      modifies this
      ensures spans == old(spans)
      ensures elements == old(elements)[id := old(elements)[id].(classes := old(elements)[id].classes - cs)]
    {
      elements := elements[id := elements[id].(classes := elements[id].classes - cs)];
    }
  }
}
