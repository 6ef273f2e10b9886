/**
  * Laravel's `Str` inflection and casing helpers. Their rules live in library
  * code outside this package, so the model takes them as a parameter: every
  * property proved here holds whatever these functions return.
  */
module Inflection {

  datatype Inflector = Inflector(
    singular: string -> string,          // Str::singular
    plural: string -> string,            // Str::plural
    studly: string -> string,            // Str::studly
    camel: string -> string,             // Str::camel
    kebab: string -> string,             // Str::kebab
    title: string -> string,             // Str::title
    snake: (string, string) -> string)   // Str::snake($value, $delimiter)
  {
    /** The model class derived from a table name: `Str::studly(Str::singular($table))`. */
    function ModelClass(table: string): string {
      studly(singular(table))
    }
  }
}
