/**
 * The library conversions the handlers call, as inputs of the model:
 * Double.parseDouble, Integer.parseInt and SimpleDateFormat("yyyy-MM-dd")
 * answer None where they throw, and the formatters turn dates, timestamps
 * and salaries into display text.
 */
module JavaLib {
  import opened Wrappers
  import opened EmployeeModel

  datatype Parsers = Parsers(
    parseDouble: string -> Option<real>,
    parseInt: string -> Option<int>,
    parseDate: string -> Option<Millis>)

  datatype Formats = Formats(
    date: Millis -> string,         // yyyy-MM-dd
    stamp: Millis -> string,        // yyyy-MM-dd HH:mm:ss in the default zone
    seoulStamp: Millis -> string,   // the same pattern in Asia/Seoul
    twoDecimals: real -> string)    // String.format("%.2f", x)
}
