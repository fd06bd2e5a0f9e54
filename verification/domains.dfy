/** The domain tags taps declare at their boundaries: 'bytes', 'primitive' and 'text' in the
    source, and `Other` for any other string a tap might declare. */
module Domains {

  datatype Domain = Bytes | Primitive | Text | Other
}
