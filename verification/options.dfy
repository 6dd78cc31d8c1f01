/** The optional value shared by both tools: `std::optional` in the application and
    "no result" in the resource compiler's parsers. */
module Options {
  datatype Option<+T> = None | Some(value: T)
}
