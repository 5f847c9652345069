/** The string operations the compiler uses on dotted names. */
module Text {
  import opened Wrappers

  /** The text before the first '.', or all of it. */
  function Root(path: string): (r: string)
    ensures r <= path && '.' !in r
    ensures r == path || (|r| < |path| && path[|r|] == '.')
  {
    if path == "" || path[0] == '.' then "" else [path[0]] + Root(path[1..])
  }

  /** The text after the last `c`, if there is one. */
  function LastSuffix(s: string, c: char): (r: Option<string>)
    ensures r.Some? <==> c in s
    ensures r.Some? ==> c !in r.value && |r.value| < |s| &&
                        s == s[..|s| - |r.value| - 1] + [c] + r.value
  {
    if s == "" then None
    else
      var r := LastSuffix(s[1..], c);
      if r.Some? then r else if s[0] == c then Some(s[1..]) else None
  }

  /** Every "::", taken left to right, becomes ".". */
  function Canonical(name: string): string {
    if |name| < 2 then name
    else if name[0] == ':' && name[1] == ':' then "." + Canonical(name[2..])
    else [name[0]] + Canonical(name[1..])
  }

  function Digit(n: nat): char
    requires n < 10
  {
    ('0' as int + n) as char
  }

  /** The decimal spelling of a number. */
  function Decimal(n: nat): (r: string)
    ensures |r| > 0
  {
    if n < 10 then [Digit(n)] else Decimal(n / 10) + [Digit(n % 10)]
  }
}
