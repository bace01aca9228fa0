/** The configuration constants the normalisation engine reads (lib/config.py). */
module Config {
  const MAX_CALLS_PER_API_KEY: int := 15
  const BATCH_SIZE: nat := 30
  const VALID_COUNTRIES: seq<string> := ["US", "CA"]

  /** Unit abbreviations and their replacements, in the order they are applied. */
  const UNIT_REPLACEMENTS: seq<(string, string)> := [
    ("in.", "in"), ("ft.", "ft"), ("FT.", "FT"), ("Ft.", "Ft"), ("yd.", "yd"),
    ("mi.", "mi"), ("cm.", "cm"), ("mm.", "mm"), ("m.", "m"),
    ("max.", "max"), ("Max.", "Max"), ("min.", "min"), ("Min.", "Min"),
    ("avg.", "avg"), ("Avg.", "Avg"), ("nom.", "nom"), ("Nom.", "Nom"),
    ("lbs.", "lbs"), ("lb.", "lb"), ("oz.", "oz"),
    ("cu.", "cu"), ("gal.", "gal"), ("qt.", "qt"), ("pt.", "pt"),
    ("sec.", "sec"), ("Sec.", "Sec"), ("hr.", "hr"), ("hrs.", "hr"),
    ("\U{00B0}F.", "\U{00B0}F"), ("\U{00B0}C.", "\U{00B0}C")
  ]

  const SPEC_SECTIONS: seq<string> := [
    "engine", "operational", "measurements", "hydraulics",
    "weights", "dimensions", "electrical", "drivetrain",
    "body", "other"
  ]

  const REQUIRED_GENERAL_FIELDS: seq<string> := [
    "manufacturer", "model", "year", "msrp",
    "category", "subcategory", "description", "countries"
  ]

  /** Keys under which an empty string survives null-stripping. */
  const MEDIA_EMPTY_FIELDS: set<string> := {"desc", "longDesc", "attachmentName"}
}
