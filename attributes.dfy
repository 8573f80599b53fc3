/**
 * The per-type descriptor table that replaces reflection over a record type: its properties in
 * declaration order, each with the sorting attributes (Attributes/) and the ASP.NET alternate
 * names it carries, its kind, and the properties of its own type.
 */
module Attributes {
  import opened Wrappers
  import opened Dtos

  /** The payload of [Sort] and of [RequiredSort]: an order index and a direction. */
  datatype OrderAttribute = OrderAttribute(order: int, direction: SortDirection)

  /** [Sort] and [Sort(direction)]: order 0. */
  function Sort(direction: SortDirection := Asc): OrderAttribute {
    OrderAttribute(0, direction)
  }

  /** [Sort(order)] and [Sort(order, direction)]: the direction defaults to Asc. */
  function SortAt(order: int, direction: SortDirection := Asc): OrderAttribute {
    OrderAttribute(order, direction)
  }

  /** [RequiredSort] and [RequiredSort(direction)]: order 0, the direction defaults to Asc. */
  function RequiredSort(direction: SortDirection := Asc): OrderAttribute {
    OrderAttribute(0, direction)
  }

  /** [RequiredSort(order)] and [RequiredSort(order, direction)]: the direction defaults to Desc. */
  function RequiredSortAt(order: int, direction: SortDirection := Desc): OrderAttribute {
    OrderAttribute(order, direction)
  }

  /** The constructor defaults, side by side: only RequiredSort with an explicit order descends. */
  lemma ConstructorDefaults(order: int)
    ensures Sort() == OrderAttribute(0, Asc) && SortAt(order) == OrderAttribute(order, Asc)
    ensures RequiredSort() == OrderAttribute(0, Asc) && RequiredSortAt(order) == OrderAttribute(order, Desc)
  {
  }

  /** What a property's type is, as far as sorting cares: string, another non-class type, or a class. */
  datatype Kind = Text | Scalar | Class

  /**
   * One property of a record type. `jsonName` and `bindName` are the names given by
   * [JsonPropertyName] and [BindProperty]; `noSort`, `sort`, `requiredSort` and `sortBy` are the
   * library's attributes; `members` are the properties of the property's own type.
   */
  datatype Property = Property(
    name: string,
    jsonName: Option<string>,
    bindName: Option<string>,
    noSort: bool,
    sort: Option<OrderAttribute>,
    requiredSort: Option<OrderAttribute>,
    sortBy: Option<seq<string>>,
    kind: Kind,
    members: seq<Property>)
}
