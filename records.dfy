/** The `products` record shared by the catalogue page and the dashboard, restricted to the
    columns the pages read or write. A column that may be `null` or missing is an `Option`. */
module Records {
  import opened Wrappers

  /** A calendar day (`getFullYear()`, `getMonth() + 1`, `getDate()`). */
  datatype Date = Date(year: nat, month: nat, day: nat)

  /** A stored file: the original file name and its object-storage path. */
  datatype FileRef = FileRef(name: string, path: string)

  /** Build parameters of a 3D-printed product (the `threeD` form state). */
  datatype PrintParams = PrintParams(
    filamentType: string,
    color: string,
    gramsUsed: real,
    spoolCostPerKg: real,
    printHours: real,
    machineRate: real,
    laborRate: real,
    energyKwh: real)

  /** Build parameters of a product ordered from a supplier (the `ordered` form state). */
  datatype SupplyParams = SupplyParams(
    supplier: string,
    supplierContact: string,
    unitCost: real,
    importPerUnit: real,
    customizationCost: real,
    moq: real,
    leadTime: string)

  /** The `build` column: whichever parameter set was saved, or nothing. */
  datatype Build = Printed(printParams: PrintParams) | Supplied(supplyParams: SupplyParams) | NoBuild

  datatype Specs = Specs(weight: real, dimensions: string, colors: seq<string>)

  datatype Pricing = Pricing(cost: real, margin: real, retail: real, reseller: real, resellerDiscount: real)

  /** One entry of the `votes` object: the emoji each of the two voters chose ("" when absent). */
  datatype Vote = Vote(guillaume: string, david: string)

  /** A row of the `products` table. `folder` is "" when the column is null; `version` is `None`
      when the column does not hold a string. */
  datatype Product = Product(
    id: string,
    kind: string,
    name: string,
    code: string,
    version: Option<string>,
    description: string,
    status: string,
    folder: string,
    tags: seq<string>,
    author: string,
    specs: Option<Specs>,
    pricing: Option<Pricing>,
    build: Build,
    files: Option<seq<FileRef>>,
    votes: Option<map<string, Vote>>,
    reminderDate: Option<Date>,
    reminderDone: bool)

  /** No two rows share an `id` (the table's primary key). */
  ghost predicate UniqueIds(items: seq<Product>)
  {
    forall i, j :: 0 <= i < j < |items| ==> items[i].id != items[j].id
  }
}
