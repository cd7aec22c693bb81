/**
 * The records of the dashboard: a widget, a category holding its placed
 * widgets, and the whole dashboard state with its per-category catalog.
 */
module DashboardTypes {

  /** The four kinds a widget can have (its `type` field). */
  datatype WidgetType = Chart | Metric | Alert | Scan

  datatype Widget = Widget(id: string, name: string, text: string, kind: WidgetType)

  /** A category and the widgets currently placed in it, in display order. */
  datatype Category = Category(id: string, name: string, widgets: seq<Widget>)

  /** The widgets offered for each category id. */
  type Catalog = map<string, seq<Widget>>

  datatype DashboardData = DashboardData(categories: seq<Category>, availableWidgets: Catalog)
}
