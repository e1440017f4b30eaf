/** An LDAP control as the connection passes it on: an OID, a criticality
    flag and an optional value, with chained setters and the array form
    handed to the transport, which leaves out a null value. */
module LdapControl {
  import opened Wrappers

  /** The values a control field or array slot can hold. */
  datatype Value = Null | Bool(b: bool) | Str(s: string)

  datatype Control = Control(oid: string, criticality: bool, value: Value)

  /** The constructor with only an OID: not critical, no value. */
  function New(oid: string): (c: Control)
    ensures c.oid == oid && !c.criticality && c.value == Null
  {
    Control(oid, false, Null)
  }

  /** The constructor with all three arguments. */
  function NewWith(oid: string, criticality: bool, value: Value): (c: Control)
    ensures c.oid == oid && c.criticality == criticality && c.value == value
  {
    Control(oid, criticality, value)
  }

  // Each setter returns the updated control, so calls chain; only the named
  // field changes.

  function SetOid(c: Control, oid: string): (r: Control)
    ensures r.oid == oid && r.criticality == c.criticality && r.value == c.value
  {
    c.(oid := oid)
  }

  function SetCriticality(c: Control, criticality: bool): (r: Control)
    ensures r.criticality == criticality && r.oid == c.oid && r.value == c.value
  {
    c.(criticality := criticality)
  }

  function SetValue(c: Control, value: Value): (r: Control)
    ensures r.value == value && r.oid == c.oid && r.criticality == c.criticality
  {
    c.(value := value)
  }

  /** Setters of different fields commute, and the full chain builds the
      control the three-argument constructor does. */
  lemma SettersCommute(c: Control, oid: string, criticality: bool, value: Value)
    ensures SetOid(SetCriticality(c, criticality), oid) == SetCriticality(SetOid(c, oid), criticality)
    ensures SetOid(SetValue(c, value), oid) == SetValue(SetOid(c, oid), value)
    ensures SetCriticality(SetValue(c, value), criticality) == SetValue(SetCriticality(c, criticality), value)
    ensures SetValue(SetCriticality(SetOid(c, oid), criticality), value) == NewWith(oid, criticality, value)
  {
  }

  /** A later setter of the same field wins over an earlier one. */
  lemma LastSetterWins(c: Control, oid1: string, oid2: string, crit1: bool, crit2: bool, value1: Value, value2: Value)
    ensures SetOid(SetOid(c, oid1), oid2) == SetOid(c, oid2)
    ensures SetCriticality(SetCriticality(c, crit1), crit2) == SetCriticality(c, crit2)
    ensures SetValue(SetValue(c, value1), value2) == SetValue(c, value2)
  {
  }

  /** The keyed array form: `oid`, `iscritical`, and `value` only when the
      value is not null. */
  function ToArray(c: Control): (a: seq<(string, Value)>)
    ensures |a| == (if c.value == Null then 2 else 3)
    ensures a[0] == ("oid", Str(c.oid)) && a[1] == ("iscritical", Bool(c.criticality))
    ensures (exists i :: 0 <= i < |a| && a[i].0 == "value") <==> c.value != Null
    ensures c.value != Null ==> a[2] == ("value", c.value)
  {
    var a := [("oid", Str(c.oid)), ("iscritical", Bool(c.criticality))]
      + (if c.value == Null then [] else [("value", c.value)]);
    assert a[0].0 != "value" by { assert a[0].0[0] != "value"[0]; }
    assert a[1].0 != "value" by { assert a[1].0[0] != "value"[0]; }
    assert c.value != Null ==> a[2].0 == "value";
    a
  }

  /** Reads a control back from its array form; anything else is refused. */
  function FromArray(a: seq<(string, Value)>): (r: Option<Control>)
    ensures r.Some? ==> |a| == 2 || |a| == 3
  {
    if (|a| == 2 || |a| == 3)
      && a[0].0 == "oid" && a[0].1.Str?
      && a[1].0 == "iscritical" && a[1].1.Bool?
      && (|a| == 3 ==> a[2].0 == "value" && a[2].1 != Null)
    then Some(Control(a[0].1.s, a[1].1.b, if |a| == 3 then a[2].1 else Null))
    else None
  }

  /** The array form loses nothing: reading it back gives the control. */
  lemma FromArrayToArray(c: Control)
    ensures FromArray(ToArray(c)) == Some(c)
  {
  }

  /** Every array the reader accepts is the array form of what it reads. */
  lemma ToArrayFromArray(a: seq<(string, Value)>)
    requires FromArray(a).Some?
    ensures ToArray(FromArray(a).value) == a
  {
    var c := FromArray(a).value;
    if |a| == 2 {
      assert a == [a[0], a[1]];
    } else {
      assert a == [a[0], a[1], a[2]];
    }
  }

  /** The array form tells controls apart. */
  lemma ToArrayInjective(c: Control, d: Control)
    ensures ToArray(c) == ToArray(d) <==> c == d
  {
    if ToArray(c) == ToArray(d) {
      FromArrayToArray(c);
      FromArrayToArray(d);
    }
  }

  /** A fresh control's array holds just its OID and `iscritical = false`;
      after setting criticality and the value `false`, which is not null,
      the array also carries `value`. */
  lemma ArrayExample(oid: string)
    ensures ToArray(New(oid)) == [("oid", Str(oid)), ("iscritical", Bool(false))]
    ensures ToArray(SetValue(SetCriticality(New(oid), true), Bool(false)))
      == [("oid", Str(oid)), ("iscritical", Bool(true)), ("value", Bool(false))]
  {
  }

  /** Setting another OID, criticality or value replaces just that field. */
  lemma SetterExample(oid: string, other: string)
    ensures SetOid(New(oid), other) == Control(other, false, Null)
    ensures SetCriticality(New(oid), true) == Control(oid, true, Null)
    ensures SetValue(New(oid), Bool(false)) == Control(oid, false, Bool(false))
  {
  }
}
