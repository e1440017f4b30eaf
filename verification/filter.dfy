/** Search filters in the string syntax of section 3 of RFC 4515, restricted
    to what the resolution converter builds: equality, AND and OR. */
module Filter {

  datatype Filter = Eq(attr: string, value: string) | And(terms: seq<Filter>) | Or(terms: seq<Filter>)

  /** `(attr=value)`, `(&…)`, `(|…)`; values are inserted as given. */
  function Render(f: Filter): string
    decreases f
  {
    match f
    case Eq(a, v) => "(" + a + "=" + v + ")"
    case And(ts) => "(&" + RenderAll(ts) + ")"
    case Or(ts) => "(|" + RenderAll(ts) + ")"
  }

  function RenderAll(ts: seq<Filter>): string
    decreases ts
  {
    if |ts| == 0 then "" else Render(ts[0]) + RenderAll(ts[1..])
  }

  /** A directory entry as the filter sees it: values per attribute name. */
  type Entry = map<string, set<string>>

  predicate Has(e: Entry, attr: string, value: string) {
    attr in e && value in e[attr]
  }

  /** What a filter selects: an entry holding the value, or all / any of
      the terms. */
  predicate Matches(f: Filter, e: Entry)
    decreases f
  {
    match f
    case Eq(a, v) => Has(e, a, v)
    case And(ts) => forall i :: 0 <= i < |ts| ==> Matches(ts[i], e)
    case Or(ts) => exists i :: 0 <= i < |ts| && Matches(ts[i], e)
  }
}
