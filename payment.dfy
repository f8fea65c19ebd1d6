/** The payment page (Payment.tsx): a fixed catalog of services, a record of
    seven text fields, and the handlers that edit and reset it. */
module Payment {
  import opened Wrappers

  /* ---------- the service catalog ---------- */

  /** One entry of `services`: the key the selector reports, the title it
      shows and the amount, kept as the string the page displays. */
  datatype Service = Service(value: string, title: string, amount: string)

  const Services: seq<Service> := [
    Service("teen-license", "Teen License Behind the Wheel - $495", "495"),
    Service("single-lesson", "Single Driving Lesson - $65", "65"),
    Service("5-lessons", "5-Lesson Package - $300", "300"),
    Service("10-lessons", "10-Lesson Package - $550", "550"),
    Service("driver-improvement", "Online Driver Improvement - $100", "100")
  ]

  /** The amounts the catalog offers. */
  const CatalogAmounts: set<string> := {"495", "65", "300", "550", "100"}

  /** No two entries share a key. */
  predicate DistinctValues(list: seq<Service>) {
    forall i, j | 0 <= i < j < |list| :: list[i].value != list[j].value
  }

  lemma ServiceValuesDistinct()
    ensures DistinctValues(Services)
    ensures forall s | s in Services :: s.amount in CatalogAmounts && s.amount != ""
  {
  }

  /** `list.find((s) => s.value === value)`: the first entry with that key. */
  function Find(list: seq<Service>, value: string): (r: Option<Service>)
    ensures r.Some? ==> r.value in list && r.value.value == value
    ensures r.None? <==> forall s | s in list :: s.value != value
    ensures r.Some? ==> exists k | 0 <= k < |list| ::
      list[k] == r.value && forall i | 0 <= i < k :: list[i].value != value
  {
    if list == [] then None
    else if list[0].value == value then Some(list[0])
    else Find(list[1..], value)
  }

  /** With distinct keys, the entry found is the only one carrying the key. */
  lemma {:induction false} FindDistinct(list: seq<Service>, s: Service)
    requires DistinctValues(list)
    requires s in list
    ensures Find(list, s.value) == Some(s)
  {
    if list[0] != s {
      assert s in list[1..];
      var k :| 0 <= k < |list| && list[k] == s;
      assert list[0].value != s.value;
      FindDistinct(list[1..], s);
    }
  }

  /** `selected?.amount || ""`: the amount of the chosen service, or the
      empty string when the key is not in the catalog. */
  function AmountFor(value: string): (r: string)
    ensures r == "" || r in CatalogAmounts
    ensures r == "" <==> forall s | s in Services :: s.value != value
  {
    ServiceValuesDistinct();
    match Find(Services, value)
    case Some(s) => s.amount
    case None => ""
  }

  /** Choosing a catalog entry shows exactly that entry's amount. */
  lemma SelectCatalogEntry(s: Service)
    requires s in Services
    ensures AmountFor(s.value) == s.amount
  {
    ServiceValuesDistinct();
    FindDistinct(Services, s);
  }

  lemma CatalogAmountsExample()
    ensures AmountFor("10-lessons") == "550"
    ensures AmountFor("road-test") == ""
  {
    SelectCatalogEntry(Services[3]);
    UnknownServiceAmount("road-test");
  }

  /** A key that names no catalog entry shows no amount. */
  lemma UnknownServiceAmount(value: string)
    requires value !in {"teen-license", "single-lesson", "5-lessons", "10-lessons", "driver-improvement"}
    ensures AmountFor(value) == ""
  {
    forall s | s in Services ensures s.value != value {
      var k :| 0 <= k < |Services| && Services[k] == s;
    }
  }

  /* ---------- the payment record ---------- */

  /** The fields a text input edits; `service` and `amount` change only through
      the service selector. */
  datatype EditableField = Name | Email | CardNumber | Expiry | Cvv

  /** `paymentData`. */
  datatype PaymentData = PaymentData(
    service: string, amount: string, name: string, email: string,
    cardNumber: string, expiry: string, cvv: string)
  {
    function Get(f: EditableField): string {
      match f
      case Name => name
      case Email => email
      case CardNumber => cardNumber
      case Expiry => expiry
      case Cvv => cvv
    }

    /** `{ ...paymentData, [f]: v }` */
    function With(f: EditableField, v: string): (r: PaymentData)
      ensures r.Get(f) == v
      ensures forall g | g != f :: r.Get(g) == Get(g)
      ensures r.service == service && r.amount == amount
    {
      match f
      case Name => this.(name := v)
      case Email => this.(email := v)
      case CardNumber => this.(cardNumber := v)
      case Expiry => this.(expiry := v)
      case Cvv => this.(cvv := v)
    }
  }

  /** The initial value of `paymentData`, and the value `handleSubmit` resets it to. */
  const EmptyPayment: PaymentData := PaymentData("", "", "", "", "", "", "")

  /** The displayed amount belongs to the selected service. */
  predicate Consistent(d: PaymentData) {
    d.amount == AmountFor(d.service)
  }

  lemma EmptyPaymentConsistent()
    ensures Consistent(EmptyPayment)
    ensures EmptyPayment.amount == ""
  {
    assert forall s | s in Services :: s.value != "";
  }

  /** A consistent record shows no amount or one the catalog offers. */
  lemma ConsistentAmount(d: PaymentData)
    requires Consistent(d)
    ensures d.amount == "" || d.amount in CatalogAmounts
    ensures d.amount == "" <==> forall s | s in Services :: s.value != d.service
  {
  }

  /* ---------- the handlers, as steps ---------- */

  /** What the page can do to `paymentData`. */
  datatype Event = SelectService(value: string) | Edit(field: EditableField, text: string) | Submit

  /** The record after one handler runs. */
  function Step(d: PaymentData, e: Event): PaymentData {
    match e
    case SelectService(value) => d.(service := value, amount := AmountFor(value))
    case Edit(f, v) => d.With(f, v)
    case Submit => EmptyPayment
  }

  /** The record after a sequence of handlers runs, in order. */
  function Run(d: PaymentData, events: seq<Event>): PaymentData
    decreases |events|
  {
    if events == [] then d else Run(Step(d, events[0]), events[1..])
  }

  /** Choosing a service sets the service and its amount and leaves the
      five text fields alone. */
  lemma SelectServiceStep(d: PaymentData, value: string)
    ensures Step(d, SelectService(value)).service == value
    ensures Consistent(Step(d, SelectService(value)))
    ensures forall f :: Step(d, SelectService(value)).Get(f) == d.Get(f)
  {
  }

  /** Every handler keeps the amount consistent with the service. */
  lemma StepConsistent(d: PaymentData, e: Event)
    requires Consistent(d)
    ensures Consistent(Step(d, e))
  {
    if e.Submit? {
      EmptyPaymentConsistent();
    }
  }

  /** Whatever the user does, starting from a consistent record, the amount
      stays that of the selected service: no handler but the service
      selector and the reset writes it. */
  lemma {:induction false} RunConsistent(d: PaymentData, events: seq<Event>)
    requires Consistent(d)
    ensures Consistent(Run(d, events))
    decreases |events|
  {
    if events != [] {
      StepConsistent(d, events[0]);
      RunConsistent(Step(d, events[0]), events[1..]);
    }
  }

  /** Text edits alone never change the service or the amount. */
  lemma {:induction false} EditsKeepAmount(d: PaymentData, events: seq<Event>)
    requires forall i | 0 <= i < |events| :: events[i].Edit?
    ensures Run(d, events).service == d.service
    ensures Run(d, events).amount == d.amount
    decreases |events|
  {
    if events != [] {
      EditsKeepAmount(Step(d, events[0]), events[1..]);
    }
  }

  lemma {:induction false} RunAppend(d: PaymentData, xs: seq<Event>, ys: seq<Event>)
    ensures Run(d, xs + ys) == Run(Run(d, xs), ys)
    decreases |xs|
  {
    if xs != [] {
      assert (xs + ys)[0] == xs[0];
      assert (xs + ys)[1..] == xs[1..] + ys;
      RunAppend(Step(d, xs[0]), xs[1..], ys);
    } else {
      assert xs + ys == ys;
    }
  }

  /** Submitting ends with the empty record whatever came before, since the
      submit handler checks nothing. */
  lemma SubmitResets(d: PaymentData, events: seq<Event>)
    ensures Run(d, events + [Submit]) == EmptyPayment
  {
    RunAppend(d, events, [Submit]);
  }

  /* ---------- the page component ---------- */

  class PaymentForm {
    var data: PaymentData

    predicate Valid()
      reads this
    {
      Consistent(data)
    }

    constructor ()
      ensures data == EmptyPayment
      ensures Valid()
    {
      data := EmptyPayment;
      EmptyPaymentConsistent();
    }

    /** `handleServiceChange(value)` */
    method HandleServiceChange(value: string)
      modifies this
      ensures data == Step(old(data), SelectService(value))
      ensures data.service == value && data.amount == AmountFor(value)
      ensures forall f :: data.Get(f) == old(data).Get(f)
      ensures Valid()
    {
      data := data.(service := value, amount := AmountFor(value));
    }

    /** The `onChange` handler of the text input for `f`. */
    method HandleEdit(f: EditableField, v: string)
      modifies this
      ensures data == Step(old(data), Edit(f, v))
      ensures data.Get(f) == v
      ensures forall g | g != f :: data.Get(g) == old(data).Get(g)
      ensures data.service == old(data).service && data.amount == old(data).amount
      ensures old(Valid()) ==> Valid()
    {
      data := data.With(f, v);
    }

    /** `handleSubmit`: no validation, every field back to empty. */
    method HandleSubmit()
      modifies this
      ensures data == Step(old(data), Submit)
      ensures data == EmptyPayment
      ensures Valid()
    {
      data := EmptyPayment;
      EmptyPaymentConsistent();
    }
  }
}
