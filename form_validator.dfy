/**
 * `FormValidatorService`: picks one message for a field's failure reasons
 * and brings the field's element (its classes and its feedback span) in
 * line with the field's validity.
 */
module FormValidator {
  import opened Wrappers
  import opened Dom
  import Translate
  import I18n
  import Validators

  /** What a pass reads of a form control: its dirty flag and its error map's keys (`None` is `null`). */
  datatype Control = Control(dirty: bool, errors: Option<seq<string>>)

  /** The form's controls by key. */
  type Form = map<string, Control>

  // -------------------------------------------------------- message resolution

  /** The resolver's priority: `required` first, `whiteSpaceLine` second, then the rest. */
  function Rank(reason: string): (n: nat)
    ensures n <= 2
    ensures n < 2 <==> reason == "required" || reason == "whiteSpaceLine"
  {
    if reason == "required" then 0 else if reason == "whiteSpaceLine" then 1 else 2
  }

  /**
   * The key whose translation is shown for a list of reasons. An empty
   * list looks up `errors[0]`, i.e. the property `"undefined"`.
   */
  function SelectedKey(errors: seq<string>): (k: string)
    ensures errors != [] ==> k in errors
    ensures errors == [] ==> k == "undefined"
    ensures forall j :: 0 <= j < |errors| ==> Rank(k) <= Rank(errors[j])
    ensures errors != [] && Rank(k) == 2 ==> k == errors[0]
  {
    if "required" in errors then "required"
    else if "whiteSpaceLine" in errors then "whiteSpaceLine"
    else if errors == [] then "undefined"
    else errors[0]
  }

  /** `orderErrors`: the translation of the selected key, `None` when the table has none. */
  function OrderErrors(translations: map<string, string>, errors: seq<string>): (r: Option<string>)
    ensures r == Get(translations, SelectedKey(errors))
  {
    if "required" in errors then Get(translations, "required")
    else if "whiteSpaceLine" in errors then Get(translations, "whiteSpaceLine")
    else if errors == [] then Get(translations, "undefined")
    else Get(translations, errors[0])
  }

  /** `required` wins wherever it stands in the list; then `whiteSpaceLine`. */
  lemma OrderErrorsPriority(translations: map<string, string>, errors: seq<string>)
    ensures "required" in errors ==> OrderErrors(translations, errors) == Get(translations, "required")
    ensures "required" !in errors && "whiteSpaceLine" in errors ==>
              OrderErrors(translations, errors) == Get(translations, "whiteSpaceLine")
    ensures "required" !in errors && "whiteSpaceLine" !in errors && errors != [] ==>
              OrderErrors(translations, errors) == Get(translations, errors[0])
  {
    var k := SelectedKey(errors);
    if "required" in errors {
      var j :| 0 <= j < |errors| && errors[j] == "required";
      assert Rank(k) <= Rank(errors[j]);
    } else if "whiteSpaceLine" in errors {
      var j :| 0 <= j < |errors| && errors[j] == "whiteSpaceLine";
      assert Rank(k) <= Rank(errors[j]);
    }
  }

  /**
   * When `required` or `whiteSpaceLine` is among the reasons, the message
   * does not depend on the order the reasons come in.
   */
  lemma OrderErrorsIgnoresOrder(translations: map<string, string>, e1: seq<string>, e2: seq<string>)
    requires forall x :: x in e1 <==> x in e2
    requires "required" in e1 || "whiteSpaceLine" in e1
    ensures OrderErrors(translations, e1) == OrderErrors(translations, e2)
  {
    OrderErrorsPriority(translations, e1);
    OrderErrorsPriority(translations, e2);
  }

  /** The resolver against the en_US table. */
  lemma OrderErrorsEnUs()
    ensures OrderErrors(I18n.EnUs, ["maxlength", "required"]) == Some("Required field")
    ensures OrderErrors(I18n.EnUs, ["number", "whiteSpaceLine"]) == Some("No leading spaces")
    ensures OrderErrors(I18n.EnUs, ["number", "maxlength"]) == Some("Must be a number")
    ensures OrderErrors(I18n.EnUs, ["senseMissatge"]) == None
    ensures OrderErrors(I18n.EnUs, []) == None
  {
    I18n.EnUsEntries();
    I18n.EnUsMissingKeys();
  }

  // ------------------------------------------------------- the reconciliation

  function ErrorId(key: string): string { "error-field-message-" + key }
  function WarningId(key: string): string { "warning-field-message-" + key }

  /** Classes the error path adds to a dirty field, and the one it takes away. */
  const ShownErrorAdds: set<string> := {"ng-dirty", "ng-touched", "error-field"}
  const ShownErrorRemoves: set<string> := {"ok-field"}
  /** Classes the error path takes away from a pristine field. */
  const HiddenErrorRemoves: set<string> := {"ng-dirty", "ok-field", "ng-valid"}
  /** Classes the valid path adds, and the one it takes away. */
  const ValidAdds: set<string> := {"ok-field", "ng-valid", "ng-touched"}
  const ValidRemoves: set<string> := {"error-field"}

  /** Both stale feedback spans of a field detached. */
  function ClearFeedback(spans: map<string, seq<Span>>, key: string): map<string, seq<Span>> {
    RemoveSpan(RemoveSpan(spans, ErrorId(key)), WarningId(key))
  }

  /** An element with the field's id exists and is neither a table nor a container. */
  predicate IsLeafField(elements: map<string, Element>, key: string) {
    key in elements && elements[key].nodeName != "TABLE" && elements[key].nodeName != "DIV"
  }

  /** The fresh error span for a field, holding the resolved message. */
  function ErrorSpan(key: string, message: Option<string>): Span {
    Span(ErrorId(key), {"error-field-message"}, message)
  }

  function WithClasses(elements: map<string, Element>, key: string, add: set<string>, remove: set<string>)
    : map<string, Element>
    requires key in elements
  {
    elements[key := elements[key].(classes := elements[key].classes + add - remove)]
  }

  /** Applying the same class edit twice is applying it once. */
  lemma WithClassesTwice(elements: map<string, Element>, key: string, add: set<string>, remove: set<string>)
    requires key in elements
    ensures WithClasses(WithClasses(elements, key, add, remove), key, add, remove)
         == WithClasses(elements, key, add, remove)
  {
    var e := elements[key];
    assert e.classes + add - remove + add - remove == e.classes + add - remove;
  }

  /** `manageErrors`, as a function of the store. */
  function ErrorsOutcome(translations: map<string, string>, key: string, c: Control, st: Store): Store
    requires key in st.elements && c.errors.Some?
  {
    if c.dirty then
      var parent := st.elements[key].parent;
      var spans := if parent.Some?
                   then AppendSpan(st.spans, parent.value, ErrorSpan(key, OrderErrors(translations, c.errors.value)))
                   else st.spans;
      Store(WithClasses(st.elements, key, ShownErrorAdds, ShownErrorRemoves), spans)
    else
      Store(WithClasses(st.elements, key, {}, HiddenErrorRemoves), st.spans)
  }

  /** `manageValid`, as a function of the store. */
  function ValidOutcome(key: string, st: Store): Store
    requires key in st.elements
  {
    Store(WithClasses(st.elements, key, ValidAdds, ValidRemoves), st.spans)
  }

  /** `manageValidateFields`, as a function of the store. */
  function Reconcile(translations: map<string, string>, key: string, form: Form, st: Store): Store {
    var cleared := Store(st.elements, ClearFeedback(st.spans, key));
    if !IsLeafField(st.elements, key) then cleared
    else if key in form && form[key].errors.Some? then ErrorsOutcome(translations, key, form[key], cleared)
    else ValidOutcome(key, cleared)
  }

  /** A pass changes no element but the field's own, and no element's tag or parent. */
  lemma ReconcileFrame(translations: map<string, string>, key: string, form: Form, st: Store)
    ensures var r := Reconcile(translations, key, form, st);
      && r.elements.Keys == st.elements.Keys
      && (forall k :: k in st.elements && k != key ==> r.elements[k] == st.elements[k])
      && (forall k :: k in st.elements ==>
            r.elements[k].nodeName == st.elements[k].nodeName && r.elements[k].parent == st.elements[k].parent)
  {
    var cleared := Store(st.elements, ClearFeedback(st.spans, key));
    var r := Reconcile(translations, key, form, st);
    if IsLeafField(st.elements, key) {
      if key in form && form[key].errors.Some? {
        assert r == ErrorsOutcome(translations, key, form[key], cleared);
      } else {
        assert r == ValidOutcome(key, cleared);
      }
    }
  }

  /** A missing field, or a table or container element, gets only the stale spans detached. */
  lemma ReconcileSkipsNonLeaf(translations: map<string, string>, key: string, form: Form, st: Store)
    requires !IsLeafField(st.elements, key)
    ensures Reconcile(translations, key, form, st) == Store(st.elements, ClearFeedback(st.spans, key))
  {
  }

  /**
   * Invalid and dirty: the message span is appended last under the parent,
   * and the field gains `ng-dirty`, `ng-touched`, `error-field` and loses `ok-field`.
   */
  lemma ReconcileShowsError(translations: map<string, string>, key: string, form: Form, st: Store)
    requires IsLeafField(st.elements, key) && key in form && form[key].errors.Some? && form[key].dirty
    ensures var r := Reconcile(translations, key, form, st);
      var cleared := ClearFeedback(st.spans, key);
      var e := st.elements[key];
      && r.elements[key] == e.(classes := e.classes + {"ng-dirty", "ng-touched", "error-field"} - {"ok-field"})
      && (e.parent.Some? ==> r.spans == AppendSpan(cleared, e.parent.value,
            Span(ErrorId(key), {"error-field-message"}, OrderErrors(translations, form[key].errors.value))))
      && (e.parent.None? ==> r.spans == cleared)
  {
    var cleared := Store(st.elements, ClearFeedback(st.spans, key));
    assert Reconcile(translations, key, form, st) == ErrorsOutcome(translations, key, form[key], cleared);
  }

  /** Invalid but pristine: no span, and the field loses `ng-dirty`, `ok-field`, `ng-valid`. */
  lemma ReconcileHidesError(translations: map<string, string>, key: string, form: Form, st: Store)
    requires IsLeafField(st.elements, key) && key in form && form[key].errors.Some? && !form[key].dirty
    ensures var r := Reconcile(translations, key, form, st);
      var e := st.elements[key];
      && r.elements[key] == e.(classes := e.classes - {"ng-dirty", "ok-field", "ng-valid"})
      && r.spans == ClearFeedback(st.spans, key)
  {
  }

  /** Valid (no control, or `errors` is `null`): no span, and `ok-field`, `ng-valid`, `ng-touched` without `error-field`. */
  lemma ReconcileMarksValid(translations: map<string, string>, key: string, form: Form, st: Store)
    requires IsLeafField(st.elements, key) && (key !in form || form[key].errors.None?)
    ensures var r := Reconcile(translations, key, form, st);
      var e := st.elements[key];
      && r.elements[key] == e.(classes := e.classes + {"ok-field", "ng-valid", "ng-touched"} - {"error-field"})
      && r.spans == ClearFeedback(st.spans, key)
  {
  }

  /** After a pass on a leaf field, it never carries both `ok-field` and `error-field`. */
  lemma ReconcileMarkersExclusive(translations: map<string, string>, key: string, form: Form, st: Store)
    requires IsLeafField(st.elements, key)
    ensures var c := Reconcile(translations, key, form, st).elements[key].classes;
      !("ok-field" in c && "error-field" in c)
  {
  }

  /**
   * After a pass there is no warning span for the field, and an error span
   * for it exists exactly when the field is a leaf with a parent and its
   * control is dirty and has errors.
   */
  lemma ReconcileFeedback(translations: map<string, string>, key: string, form: Form, st: Store)
    ensures var r := Reconcile(translations, key, form, st);
      && Absent(r.spans, WarningId(key))
      && (!Absent(r.spans, ErrorId(key)) <==>
            IsLeafField(st.elements, key) && st.elements[key].parent.Some? &&
            key in form && form[key].errors.Some? && form[key].dirty)
  {
    var r := Reconcile(translations, key, form, st);
    var cleared := ClearFeedback(st.spans, key);
    ClearFeedbackIdempotent(st.spans, key);
    IdsDiffer(key);
    if IsLeafField(st.elements, key) && st.elements[key].parent.Some? &&
       key in form && form[key].errors.Some? && form[key].dirty {
      var p := st.elements[key].parent.value;
      var x := ErrorSpan(key, OrderErrors(translations, form[key].errors.value));
      assert r.spans == AppendSpan(cleared, p, x);
      AppendSpanAbsent(cleared, p, x, ErrorId(key));
      AppendSpanAbsent(cleared, p, x, WarningId(key));
    } else {
      assert r.spans == cleared;
    }
  }

  /** The error and warning span ids of a field differ. */
  lemma IdsDiffer(key: string)
    ensures ErrorId(key) != WarningId(key)
  {
    assert ErrorId(key)[0] == 'e' && WarningId(key)[0] == 'w';
  }

  /** A pass keeps every span id unique, so a field has at most one error span. */
  lemma ReconcileKeepsUnique(translations: map<string, string>, key: string, form: Form, st: Store)
    requires UniqueSpanIds(st.spans)
    ensures UniqueSpanIds(Reconcile(translations, key, form, st).spans)
  {
    var cleared := ClearFeedback(st.spans, key);
    RemoveSpanKeepsUnique(st.spans, ErrorId(key));
    RemoveSpanKeepsUnique(RemoveSpan(st.spans, ErrorId(key)), WarningId(key));
    assert Absent(cleared, ErrorId(key));
    if IsLeafField(st.elements, key) && key in form && form[key].errors.Some? && form[key].dirty
       && st.elements[key].parent.Some? {
      AppendSpanKeepsUnique(cleared, st.elements[key].parent.value,
        ErrorSpan(key, OrderErrors(translations, form[key].errors.value)));
    }
  }

  /** Detaching the error and warning spans twice is detaching them once. */
  lemma ClearFeedbackIdempotent(spans: map<string, seq<Span>>, key: string)
    ensures Absent(ClearFeedback(spans, key), ErrorId(key))
    ensures Absent(ClearFeedback(spans, key), WarningId(key))
    ensures ClearFeedback(ClearFeedback(spans, key), key) == ClearFeedback(spans, key)
  {
    var once := ClearFeedback(spans, key);
    RemoveKeepsAbsent(RemoveSpan(spans, ErrorId(key)), ErrorId(key), WarningId(key));
    RemoveAbsentSpan(once, ErrorId(key));
    RemoveAbsentSpan(once, WarningId(key));
  }

  /** Clearing a field's spans after its error span was appended gives back the cleared store. */
  lemma ClearAfterAppend(cleared: map<string, seq<Span>>, key: string, parent: string, x: Span)
    requires Absent(cleared, ErrorId(key)) && Absent(cleared, WarningId(key)) && x.id == ErrorId(key)
    ensures ClearFeedback(AppendSpan(cleared, parent, x), key) == cleared[parent := SpansOf(cleared, parent)]
  {
    var appended := AppendSpan(cleared, parent, x);
    var again := ClearFeedback(appended, key);
    var expected := cleared[parent := SpansOf(cleared, parent)];
    IdsDiffer(key);
    forall q | q in again ensures again[q] == expected[q] {
      if q == parent {
        WithoutAppended(SpansOf(cleared, parent), x, ErrorId(key), WarningId(key));
      } else {
        assert appended[q] == cleared[q];
      }
    }
    assert again.Keys == expected.Keys;
  }

  /** Running the pass twice on an unchanged form gives the same store as running it once. */
  lemma ReconcileIdempotent(translations: map<string, string>, key: string, form: Form, st: Store)
    ensures var once := Reconcile(translations, key, form, st);
      Reconcile(translations, key, form, once) == once
  {
    var once := Reconcile(translations, key, form, st);
    ClearFeedbackIdempotent(st.spans, key);
    ReconcileFrame(translations, key, form, st);
    assert IsLeafField(once.elements, key) == IsLeafField(st.elements, key);
    if !IsLeafField(st.elements, key) {
      assert once == Store(st.elements, ClearFeedback(st.spans, key));
    } else if key in form && form[key].errors.Some? {
      if form[key].dirty && st.elements[key].parent.Some? {
        ShownErrorIdempotent(translations, key, form, st);
      } else {
        SpanlessIdempotent(translations, key, form, st);
      }
    } else {
      SpanlessIdempotent(translations, key, form, st);
    }
  }

  /** The error branch of a pass, unfolded. */
  lemma ReconcileErrorBranch(translations: map<string, string>, key: string, form: Form, st: Store)
    requires IsLeafField(st.elements, key) && key in form && form[key].errors.Some?
    ensures Reconcile(translations, key, form, st)
         == ErrorsOutcome(translations, key, form[key], Store(st.elements, ClearFeedback(st.spans, key)))
  {
  }

  /** The shown-error branch of a pass, unfolded. */
  lemma ShownErrorBranch(translations: map<string, string>, key: string, c: Control, st: Store)
    requires key in st.elements && c.errors.Some? && c.dirty && st.elements[key].parent.Some?
    ensures ErrorsOutcome(translations, key, c, st)
         == Store(WithClasses(st.elements, key, ShownErrorAdds, ShownErrorRemoves),
                  AppendSpan(st.spans, st.elements[key].parent.value, ErrorSpan(key, OrderErrors(translations, c.errors.value))))
  {
  }

  /** Idempotence where the pass appends the error span. */
  lemma ShownErrorIdempotent(translations: map<string, string>, key: string, form: Form, st: Store)
    requires IsLeafField(st.elements, key) && key in form && form[key].errors.Some?
    requires form[key].dirty && st.elements[key].parent.Some?
    ensures var once := Reconcile(translations, key, form, st);
      Reconcile(translations, key, form, once) == once
  {
    var c := form[key];
    var cleared := ClearFeedback(st.spans, key);
    ClearFeedbackIdempotent(st.spans, key);
    var p := st.elements[key].parent.value;
    var x := ErrorSpan(key, OrderErrors(translations, c.errors.value));
    var elems := WithClasses(st.elements, key, ShownErrorAdds, ShownErrorRemoves);
    var spans := AppendSpan(cleared, p, x);
    ReconcileErrorBranch(translations, key, form, st);
    ShownErrorBranch(translations, key, c, Store(st.elements, cleared));
    assert Reconcile(translations, key, form, st) == Store(elems, spans);
    assert elems[key].parent == Some(p) && IsLeafField(elems, key);
    ReconcileErrorBranch(translations, key, form, Store(elems, spans));
    ShownErrorBranch(translations, key, c, Store(elems, ClearFeedback(spans, key)));
    WithClassesTwice(st.elements, key, ShownErrorAdds, ShownErrorRemoves);
    ReappendAfterClear(cleared, key, p, x);
  }

  /** Clearing the appended error span and appending it again restores the span lists. */
  lemma ReappendAfterClear(cleared: map<string, seq<Span>>, key: string, parent: string, x: Span)
    requires Absent(cleared, ErrorId(key)) && Absent(cleared, WarningId(key)) && x.id == ErrorId(key)
    ensures var spans := AppendSpan(cleared, parent, x);
      AppendSpan(ClearFeedback(spans, key), parent, x) == spans
  {
    ClearAfterAppend(cleared, key, parent, x);
    assert AppendSpan(cleared[parent := SpansOf(cleared, parent)], parent, x) == AppendSpan(cleared, parent, x);
  }

  /** Idempotence where the pass appends no span. */
  lemma SpanlessIdempotent(translations: map<string, string>, key: string, form: Form, st: Store)
    requires IsLeafField(st.elements, key)
    requires !(key in form && form[key].errors.Some? && form[key].dirty && st.elements[key].parent.Some?)
    ensures var once := Reconcile(translations, key, form, st);
      Reconcile(translations, key, form, once) == once
  {
    var once := Reconcile(translations, key, form, st);
    var cleared := ClearFeedback(st.spans, key);
    ClearFeedbackIdempotent(st.spans, key);
    var add, remove :=
      if key in form && form[key].errors.Some? then
        (if form[key].dirty then ShownErrorAdds else {})
      else ValidAdds,
      if key in form && form[key].errors.Some? then
        (if form[key].dirty then ShownErrorRemoves else HiddenErrorRemoves)
      else ValidRemoves;
    var elems := WithClasses(st.elements, key, add, remove);
    assert once == Store(elems, cleared);
    WithClassesTwice(st.elements, key, add, remove);
    assert IsLeafField(elems, key) && elems[key].parent == st.elements[key].parent;
  }

  /** Detaching the appended span again gives back the list it was appended to. */
  lemma WithoutAppended(s: seq<Span>, x: Span, id: string, other: string)
    requires x.id == id && id != other && id !in IdsOf(s) && other !in IdsOf(s)
    ensures Without(Without(s + [x], id), other) == s
  {
    WithoutSuffix(s, x, id);
  }

  lemma WithoutSuffix(s: seq<Span>, x: Span, id: string)
    requires x.id == id && id !in IdsOf(s)
    ensures Without(s + [x], id) == s
  {
    assert forall i :: 0 <= i < |s| ==> s[i] in s;
    WithoutSuffixByIndex(s, x, id);
  }

  /** `WithoutSuffix`, with the absent id stated position by position. */
  lemma {:induction false} WithoutSuffixByIndex(s: seq<Span>, x: Span, id: string)
    requires x.id == id && forall i :: 0 <= i < |s| ==> s[i].id != id
    ensures Without(s + [x], id) == s
  {
    if s == [] {
      assert s + [x] == [x];
    } else {
      var t, rest := s + [x], s[1..];
      assert t[0] == s[0] && t[1..] == rest + [x];
      assert forall i :: 0 <= i < |rest| ==> rest[i] == s[i + 1];
      calc {
        Without(t, id);
        [s[0]] + Without(t[1..], id);
        [s[0]] + Without(rest + [x], id);
        { WithoutSuffixByIndex(rest, x, id); }
        [s[0]] + rest;
        s;
      }
    }
  }

  // ------------------------------------------------------------- the service

  class FormValidatorService {
    /** The merged translation table, captured once when the service is built. */
    const translations: map<string, string>

    constructor (translator: Translate.TranslateService)
      ensures translations == translator.GetTranslation()
    {
      translations := translator.GetTranslation();
    }

    /**
     * `manageValidateFields`: detaches the field's stale error and warning
     * spans, then, for a leaf field, shows its errors or marks it valid.
     */
    method ManageValidateFields(key: string, form: Form, doc: Document)
      requires doc.Valid()
      modifies doc
      ensures doc.Valid()
      ensures doc.State() == Reconcile(translations, key, form, old(doc.State()))
    {
      var input := doc.GetElementById(key);
      var parent := if input.Some? then input.value.parent else None;
      var span := ErrorSpan(key, None);
      doc.Remove(ErrorId(key));
      doc.Remove(WarningId(key));
      ClearFeedbackIdempotent(old(doc.spans), key);
      if input.Some? && input.value.nodeName != "TABLE" && input.value.nodeName != "DIV" {
        if key in form && form[key].errors.Some? {
          ManageErrors(span, key, form, parent, doc);
        } else {
          ManageValid(key, doc);
        }
      }
    }

    /**
     * `manageErrors`: puts the resolved message in the span; for a dirty
     * control appends it under the parent and sets the error classes,
     * otherwise only clears the dirty and ok classes.
     */
    method ManageErrors(span: Span, key: string, form: Form, parent: Option<string>, doc: Document)
      requires doc.Valid()
      requires key in form && form[key].errors.Some? && key in doc.elements
      requires span == ErrorSpan(key, None) && Absent(doc.spans, span.id)
      requires parent == doc.elements[key].parent
      modifies doc
      ensures doc.Valid()
      ensures doc.State() == ErrorsOutcome(translations, key, form[key], old(doc.State()))
    {
      ghost var st := doc.State();
      var message := span.(text := OrderErrors(translations, form[key].errors.value));
      if form[key].dirty {
        if parent.Some? {
          doc.Append(parent.value, message);
        }
        ghost var spans := doc.spans;
        doc.AddClasses(key, ShownErrorAdds);
        doc.RemoveClasses(key, ShownErrorRemoves);
        assert doc.elements == WithClasses(st.elements, key, ShownErrorAdds, ShownErrorRemoves);
        assert doc.spans == spans;
      } else {
        var classes := doc.elements[key].classes;
        assert classes + {} == classes;
        doc.RemoveClasses(key, HiddenErrorRemoves);
        assert doc.elements == WithClasses(st.elements, key, {}, HiddenErrorRemoves);
      }
    }

    /**
     * `manageValid`: sets the ok classes and clears the error class. The
     * max-length warning it guards is switched off, so no span is added.
     */
    method ManageValid(key: string, doc: Document)
      requires doc.Valid() && key in doc.elements
      modifies doc
      ensures doc.Valid()
      ensures doc.State() == ValidOutcome(key, old(doc.State()))
    {
      doc.AddClasses(key, ValidAdds);
      doc.RemoveClasses(key, ValidRemoves);
    }

    /** One deferred reconciliation: force the control dirty if asked, then run the pass. */
    method RunJob(job: Job, form: Form, doc: Document) returns (form': Form)
      requires doc.Valid()
      modifies doc
      ensures form' == if job.markDirty then MarkDirty(form, job.key) else form
      ensures doc.Valid()
      ensures doc.State() == Reconcile(translations, job.key, form', old(doc.State()))
    {
      form' := if job.markDirty then MarkDirty(form, job.key) else form;
      ManageValidateFields(job.key, form', doc);
    }
  }

  // --------------------------------------------------------- the orchestration

  /** A deferred reconciliation of one field, optionally forcing it dirty first. */
  datatype Job = Job(key: string, markDirty: bool)

  /** `markAsDirty` on the control of `key`, when there is one. */
  function MarkDirty(form: Form, key: string): (r: Form)
    ensures r.Keys == form.Keys
    ensures key in form ==> r[key] == form[key].(dirty := true)
    ensures forall k :: k in form && k != key ==> r[k] == form[k]
  {
    if key in form then form[key := form[key].(dirty := true)] else form
  }

  /**
   * A key gets a value-change subscription: dirtiness is not forced, the key
   * is non-empty, and `form.get(key)` finds its control. `form.get` reads a
   * key as a dot-separated path, which in a flat form finds nothing once the
   * key holds a dot.
   */
  predicate IsWatched(key: string, form: Form, markDirty: bool) {
    key != "" && !markDirty && '.' !in key && key in form
  }

  /** The watched keys, in order. */
  function Watched(keys: seq<string>, form: Form, markDirty: bool): (r: seq<string>)
    ensures forall k :: k in r <==> k in keys && IsWatched(k, form, markDirty)
    ensures |r| <= |keys|
  {
    if keys == [] then []
    else
      var last := keys[|keys| - 1];
      assert keys == keys[..|keys| - 1] + [last];
      Watched(keys[..|keys| - 1], form, markDirty) + (if IsWatched(last, form, markDirty) then [last] else [])
  }

  /** A single key is watched or dropped on its own. */
  lemma WatchedSingle(k: string, form: Form, markDirty: bool)
    ensures Watched([k], form, markDirty) == if IsWatched(k, form, markDirty) then [k] else []
  {
    assert [k][..0] == [];
  }

  /** Appending one key appends it to the watched keys exactly when it is watched. */
  lemma WatchedSnoc(keys: seq<string>, k: string, form: Form, markDirty: bool)
    ensures Watched(keys + [k], form, markDirty)
         == Watched(keys, form, markDirty) + (if IsWatched(k, form, markDirty) then [k] else [])
  {
    assert (keys + [k])[..|keys|] == keys;
  }

  /**
   * Order is kept: the watched keys of a concatenation are those of the
   * first part followed by those of the second.
   */
  lemma {:induction false} WatchedAppend(a: seq<string>, b: seq<string>, form: Form, markDirty: bool)
    ensures Watched(a + b, form, markDirty) == Watched(a, form, markDirty) + Watched(b, form, markDirty)
  {
    if b == [] {
      assert a + b == a;
    } else {
      var b', last := b[..|b| - 1], b[|b| - 1];
      var t := if IsWatched(last, form, markDirty) then [last] else [];
      calc {
        Watched(a + b, form, markDirty);
        { assert a + b == (a + b') + [last]; WatchedSnoc(a + b', last, form, markDirty); }
        Watched(a + b', form, markDirty) + t;
        { WatchedAppend(a, b', form, markDirty); }
        (Watched(a, form, markDirty) + Watched(b', form, markDirty)) + t;
        Watched(a, form, markDirty) + (Watched(b', form, markDirty) + t);
        { assert b == b' + [last]; WatchedSnoc(b', last, form, markDirty); }
        Watched(a, form, markDirty) + Watched(b, form, markDirty);
      }
    }
  }

  /**
   * `manageValidateErrors`: for each key of the form's value, in order, one
   * deferred job, and a value-change subscription for the watched keys.
   */
  method ManageValidateErrors(valueKeys: seq<string>, form: Form, markDirty: bool)
    returns (queue: seq<Job>, subscribed: seq<string>)
    ensures |queue| == |valueKeys|
    ensures forall i :: 0 <= i < |valueKeys| ==> queue[i] == Job(valueKeys[i], markDirty)
    ensures subscribed == Watched(valueKeys, form, markDirty)
  {
    queue, subscribed := [], [];
    for i := 0 to |valueKeys|
      invariant |queue| == i
      invariant forall j :: 0 <= j < i ==> queue[j] == Job(valueKeys[j], markDirty)
      invariant subscribed == Watched(valueKeys[..i], form, markDirty)
    {
      var key := valueKeys[i];
      queue := queue + [Job(key, markDirty)];
      assert valueKeys[..i + 1][..i] == valueKeys[..i];
      if IsWatched(key, form, markDirty) {
        subscribed := subscribed + [key];
      }
    }
    assert valueKeys[..|valueKeys|] == valueKeys;
  }

  // --------------------------------------------------------- end-to-end cases

  /**
   * Field `age` with value "12a" under `onlyNumber` and the en_US table:
   * while pristine no message and no ok marker; once dirty, the span
   * `error-field-message-age` reads "Must be a number".
   */
  lemma EndToEndAge()
    ensures var st := Store(map["age" := Element("INPUT", {"ok-field"}, Some("row"))], map[]);
      var pristine := map["age" := Control(false, Validators.OnlyNumber("12a"))];
      var r0 := Reconcile(I18n.EnUs, "age", pristine, st);
      var r1 := Reconcile(I18n.EnUs, "age", MarkDirty(pristine, "age"), r0);
      && r0.spans == map[]
      && r0.elements["age"].classes == {}
      && r1.spans == map["row" := [Span("error-field-message-age", {"error-field-message"}, Some("Must be a number"))]]
      && r1.elements["age"].classes == {"ng-dirty", "ng-touched", "error-field"}
  {
    assert !Validators.IsDigit("12a"[2]);
    assert Validators.OnlyNumber("12a") == Some(["number"]);
    I18n.EnUsEntries();
    var st := Store(map["age" := Element("INPUT", {"ok-field"}, Some("row"))], map[]);
    var pristine := map["age" := Control(false, Some(["number"]))];
    assert ClearFeedback(map[], "age") == map[];
    assert IsLeafField(st.elements, "age");
    var r0 := Reconcile(I18n.EnUs, "age", pristine, st);
    assert r0 == ErrorsOutcome(I18n.EnUs, "age", pristine["age"], st);
    assert {"ok-field"} + {} - HiddenErrorRemoves == {};
    var e0 := Element("INPUT", {}, Some("row"));
    assert r0 == Store(map["age" := e0], map[]);
    var dirty := MarkDirty(pristine, "age");
    assert dirty == map["age" := Control(true, Some(["number"]))];
    assert IsLeafField(r0.elements, "age");
    var r1 := Reconcile(I18n.EnUs, "age", dirty, r0);
    assert r1 == ErrorsOutcome(I18n.EnUs, "age", dirty["age"], r0);
    assert OrderErrors(I18n.EnUs, ["number"]) == Some("Must be a number");
    var x := ErrorSpan("age", Some("Must be a number"));
    var none: map<string, seq<Span>> := map[];
    assert SpansOf(none, "row") + [x] == [x];
    assert AppendSpan(none, "row", x) == map["row" := [x]];
    assert {} + ShownErrorAdds - ShownErrorRemoves == {"ng-dirty", "ng-touched", "error-field"};
    assert ErrorId("age") == "error-field-message-age";
  }

  /**
   * As written: a silent failure (`customError` "none") reports
   * `senseMissatge`, which no built-in table has, so a dirty field's span
   * gets `undefined` for its text instead of staying empty.
   */
  lemma SilentFailureShowsUndefined(datalist: seq<string>, value: string)
    requires value != "" && value !in datalist
    ensures var errs := Validators.IntroducedValueExists(datalist, Some("none"), value);
      && errs == Some(["senseMissatge"])
      && OrderErrors(I18n.EnUs, errs.value) == None
      && OrderErrors(I18n.EsEs, errs.value) == None
  {
    I18n.EnUsMissingKeys();
    I18n.EsEsKeySet();
  }

  /**
   * Corrected: reporting `withoutMessage` gives the empty message under
   * both built-in tables, while the field is still marked invalid.
   */
  lemma SilentFailureShowsNothing(datalist: seq<string>, value: string)
    requires value != "" && value !in datalist
    ensures var errs := Validators.IntendedIntroducedValueExists(datalist, Some("none"), value);
      && errs == Some(["withoutMessage"])
      && OrderErrors(I18n.EnUs, errs.value) == Some("")
      && OrderErrors(I18n.EsEs, errs.value) == Some("")
  {
    I18n.EnUsEntries();
    I18n.EsEsEntries();
  }

  /**
   * `introducedValueExists` passes with `{}`, which is truthy: a dirty leaf
   * field whose `errors` is that pass result takes the error branch, gets
   * `error-field`, and gets an error span whose text is the entry for
   * `"undefined"` (the key `errors[0]` reads from an empty map).
   */
  lemma PassedListCheckShowsError(translations: map<string, string>, datalist: seq<string>,
                                  customError: Option<string>, value: string, key: string, st: Store)
    requires value == "" || value in datalist
    requires IsLeafField(st.elements, key) && st.elements[key].parent.Some?
    ensures var form := map[key := Control(true, Validators.IntroducedValueExists(datalist, customError, value))];
      var r := Reconcile(translations, key, form, st);
      && !Absent(r.spans, ErrorId(key))
      && "error-field" in r.elements[key].classes && "ok-field" !in r.elements[key].classes
      && OrderErrors(translations, form[key].errors.value) == Get(translations, "undefined")
  {
    var form := map[key := Control(true, Validators.IntroducedValueExists(datalist, customError, value))];
    assert form[key].errors == Some([]);
    ReconcileFeedback(translations, key, form, st);
    ReconcileShowsError(translations, key, form, st);
  }

  /**
   * Field `city` with `introducedValueExists(["NY", "LN"], "none")` and value
   * "Tokyo", dirty, en_US table: with the corrected key the span is empty,
   * and the field carries `error-field`, never `ok-field`.
   */
  lemma EndToEndCity()
    ensures var st := Store(map["city" := Element("INPUT", {"ok-field"}, Some("row"))], map[]);
      var errs := Validators.IntendedIntroducedValueExists(["NY", "LN"], Some("none"), "Tokyo");
      var r := Reconcile(I18n.EnUs, "city", map["city" := Control(true, errs)], st);
      && r.spans == map["row" := [Span("error-field-message-city", {"error-field-message"}, Some(""))]]
      && "error-field" in r.elements["city"].classes && "ok-field" !in r.elements["city"].classes
  {
    var errs := Validators.IntendedIntroducedValueExists(["NY", "LN"], Some("none"), "Tokyo");
    assert "Tokyo" != "NY" && "Tokyo" != "LN";
    SilentFailureShowsNothing(["NY", "LN"], "Tokyo");
    assert errs == Some(["withoutMessage"]);
    var st := Store(map["city" := Element("INPUT", {"ok-field"}, Some("row"))], map[]);
    var form := map["city" := Control(true, errs)];
    assert ClearFeedback(map[], "city") == map[];
    assert IsLeafField(st.elements, "city");
    assert Reconcile(I18n.EnUs, "city", form, st) == ErrorsOutcome(I18n.EnUs, "city", form["city"], st);
    var x := ErrorSpan("city", Some(""));
    var none: map<string, seq<Span>> := map[];
    assert SpansOf(none, "row") + [x] == [x];
    assert AppendSpan(none, "row", x) == map["row" := [x]];
    var r := Reconcile(I18n.EnUs, "city", form, st);
    assert ErrorId("city") == "error-field-message-city";
  }
}
