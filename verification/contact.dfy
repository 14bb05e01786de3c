/**
 * The contact form: three text fields, each change event overwriting exactly
 * the field it names, and a submit handler that only logs the current values.
 */
module Contact {

  /** The `name` attributes of the form's inputs. */
  datatype Field = Name | Email | Message

  datatype FormData = FormData(name: string, email: string, message: string)

  const InitialForm: FormData := FormData("", "", "")

  /** The value the input named `f` displays. */
  function Get(form: FormData, f: Field): string {
    match f
    case Name => form.name
    case Email => form.email
    case Message => form.message
  }

  /** A change event: the field named by the input takes the typed value; the rest is copied. */
  function HandleInputChange(form: FormData, f: Field, value: string): (r: FormData)
    ensures Get(r, f) == value
    ensures forall g :: g != f ==> Get(r, g) == Get(form, g)
  {
    match f
    case Name => form.(name := value)
    case Email => form.(email := value)
    case Message => form.(message := value)
  }

  /** What submitting does: the form data is logged and the state is kept. */
  datatype SubmitEffect = SubmitEffect(form: FormData, logged: FormData)

  function HandleSubmit(form: FormData): (r: SubmitEffect)
    ensures r.form == form
    ensures r.logged == r.form
  {
    SubmitEffect(form, form)
  }

  /** Two forms agreeing on every field are the same form. */
  lemma FieldsDetermineForm(a: FormData, b: FormData)
    requires forall f :: Get(a, f) == Get(b, f)
    ensures a == b
  {
    assert Get(a, Name) == Get(b, Name);
    assert Get(a, Email) == Get(b, Email);
    assert Get(a, Message) == Get(b, Message);
  }

  /** Initially every field is empty. */
  lemma InitialIsEmpty()
    ensures forall f :: Get(InitialForm, f) == ""
  {
  }

  /** Repeating a change is the same as making it once. */
  lemma ChangeIdempotent(form: FormData, f: Field, value: string)
    ensures HandleInputChange(HandleInputChange(form, f, value), f, value)
         == HandleInputChange(form, f, value)
  {
    var once := HandleInputChange(form, f, value);
    FieldsDetermineForm(HandleInputChange(once, f, value), once);
  }

  /** The last change to a field wins. */
  lemma LastChangeWins(form: FormData, f: Field, v1: string, v2: string)
    ensures HandleInputChange(HandleInputChange(form, f, v1), f, v2) == HandleInputChange(form, f, v2)
  {
    FieldsDetermineForm(HandleInputChange(HandleInputChange(form, f, v1), f, v2),
                        HandleInputChange(form, f, v2));
  }

  /** Changes to different fields commute. */
  lemma ChangesCommute(form: FormData, f: Field, v: string, g: Field, w: string)
    requires f != g
    ensures HandleInputChange(HandleInputChange(form, f, v), g, w)
         == HandleInputChange(HandleInputChange(form, g, w), f, v)
  {
    FieldsDetermineForm(HandleInputChange(HandleInputChange(form, f, v), g, w),
                        HandleInputChange(HandleInputChange(form, g, w), f, v));
  }

  /** Events the form reacts to. */
  datatype FormEvent = Input(field: Field, value: string) | Submit

  function Apply(form: FormData, e: FormEvent): FormData {
    match e
    case Input(f, v) => HandleInputChange(form, f, v)
    case Submit => HandleSubmit(form).form
  }

  function RunForm(form: FormData, evs: seq<FormEvent>): FormData
    decreases |evs|
  {
    if |evs| == 0 then form else RunForm(Apply(form, evs[0]), evs[1..])
  }

  /** Reference definition: the value of the last input event for `f`, else `default`. */
  function LastInput(evs: seq<FormEvent>, f: Field, default: string): string
    decreases |evs|
  {
    if |evs| == 0 then default
    else
      var e := evs[|evs| - 1];
      if e.Input? && e.field == f then e.value
      else LastInput(evs[..|evs| - 1], f, default)
  }

  /** Events with the submits left out. */
  function WithoutSubmits(evs: seq<FormEvent>): (r: seq<FormEvent>)
    ensures forall e :: e in r ==> e.Input?
    decreases |evs|
  {
    if |evs| == 0 then []
    else (if evs[0].Input? then [evs[0]] else []) + WithoutSubmits(evs[1..])
  }

  lemma {:induction false} RunAppend(form: FormData, a: seq<FormEvent>, b: seq<FormEvent>)
    ensures RunForm(form, a + b) == RunForm(RunForm(form, a), b)
    decreases |a|
  {
    if |a| == 0 {
      assert a + b == b;
    } else {
      assert (a + b)[0] == a[0];
      assert (a + b)[1..] == a[1..] + b;
      RunAppend(Apply(form, a[0]), a[1..], b);
    }
  }

  /** After any events, each field holds the last value typed into it (or its old value). */
  lemma {:induction false} RunFieldIsLastInput(form: FormData, evs: seq<FormEvent>, f: Field)
    ensures Get(RunForm(form, evs), f) == LastInput(evs, f, Get(form, f))
    decreases |evs|
  {
    if |evs| > 0 {
      var init := evs[..|evs| - 1];
      var last := evs[|evs| - 1];
      assert evs == init + [last];
      RunAppend(form, init, [last]);
      RunFieldIsLastInput(form, init, f);
      assert [last][1..] == [];
    }
  }

  /** Submitting never changes the form: dropping every submit gives the same state. */
  lemma {:induction false} SubmitsAreInert(form: FormData, evs: seq<FormEvent>)
    ensures RunForm(form, evs) == RunForm(form, WithoutSubmits(evs))
    decreases |evs|
  {
    if |evs| > 0 {
      SubmitsAreInert(Apply(form, evs[0]), evs[1..]);
      if evs[0].Input? {
        var rest := WithoutSubmits(evs[1..]);
        assert ([evs[0]] + rest)[0] == evs[0];
        assert ([evs[0]] + rest)[1..] == rest;
      } else {
        assert [] + WithoutSubmits(evs[1..]) == WithoutSubmits(evs[1..]);
      }
    }
  }
}
