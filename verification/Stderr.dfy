// captureStderr (src/db/adapters/postgres.ts:180-189): the stderr of a dump or restore tool is
// kept in a buffer that never outgrows its last 8192 characters, and reported when the tool fails.
module Stderr {
  import opened Text

  const LIMIT: nat := 8192
  const REPORT: nat := 1000

  /** The last `n` characters of a text, or all of it when it is shorter: slice(-n) for n > 0. */
  function Last(s: string, n: nat): (r: string)
    ensures |r| == if |s| <= n then |s| else n
  {
    if |s| <= n then s else s[|s| - n..]
  }

  /** Cutting a prefix early does not matter as long as `n` characters were kept. */
  lemma LastOfLast(a: string, b: string, n: nat)
    ensures Last(Last(a, n) + b, n) == Last(a + b, n)
  {
    if |a| > n {
      var k := |a| - n;
      assert Last(a, n) + b == (a + b)[k..];
      assert |a + b| > n;
      assert (a + b)[|a + b| - n..] == (a + b)[k..][|b|..];
    }
  }

  /** The warning written when the tool closes with an exit code, given what is left in the buffer. */
  function Report(blank: char -> bool, code: int, kept: string): (r: Option<string>) {
    var text := Strip(blank, kept);
    if code == 0 || text == "" then None
    else Some(if |text| <= REPORT then text else text[..REPORT])
  }

  /** String.prototype.trim over the platform's blank characters. */
  function Strip(blank: char -> bool, s: string): (r: string)
    ensures |r| <= |s|
    ensures r == "" <==> AllBlank(blank, s)
    ensures r != "" ==> !blank(r[0]) && !blank(r[|r| - 1])
    decreases |s|
  {
    if s == "" then s
    else if blank(s[0]) then
      assert forall k :: 0 < k < |s| ==> s[k] == s[1..][k - 1];
      Strip(blank, s[1..])
    else if blank(s[|s| - 1]) then Strip(blank, s[..|s| - 1])
    else s
  }

  /** Only blanks are dropped, and only at the two ends. */
  lemma {:induction false} StripDropsBlanks(blank: char -> bool, s: string) returns (left: string, right: string)
    ensures s == left + Strip(blank, s) + right && AllBlank(blank, left) && AllBlank(blank, right)
    decreases |s|
  {
    if s != "" && blank(s[0]) {
      var more;
      more, right := StripDropsBlanks(blank, s[1..]);
      left := [s[0]] + more;
      Associate([s[0]], more + Strip(blank, s), right);
      Associate([s[0]], more, Strip(blank, s));
      assert s == [s[0]] + s[1..];
    } else if s != "" && blank(s[|s| - 1]) {
      var last := [s[|s| - 1]];
      var more;
      left, more := StripDropsBlanks(blank, s[..|s| - 1]);
      right := more + last;
      Associate(left + Strip(blank, s), more, last);
      assert s == s[..|s| - 1] + last;
    } else {
      left, right := "", "";
    }
  }

  ghost predicate AllBlank(blank: char -> bool, s: string) {
    forall k :: 0 <= k < |s| ==> blank(s[k])
  }

  class Capture {
    var buf: string
    ghost var seen: string

    ghost predicate Valid()
      reads this
    {
      buf == Last(seen, LIMIT)
    }

    constructor ()
      ensures Valid() && seen == "" && buf == ""
    {
      buf, seen := "", "";
    }

    /** One `data` event. The buffer stays the tail of everything received so far. */
    method OnData(d: string)
      requires Valid()
      modifies this
      ensures Valid() && seen == old(seen) + d
      ensures |buf| <= LIMIT
    {
      LastOfLast(seen, d, LIMIT);
      seen := seen + d;
      buf := buf + d;
      if |buf| > LIMIT {
        buf := buf[|buf| - LIMIT..];
      }
    }
  }

  /** A whole run of the tool: however its output is cut into chunks, what is reported is the
      report of the last 8192 characters of all of it, cut once. */
  method Captured(blank: char -> bool, chunks: seq<string>, code: int)
    returns (kept: string, report: Option<string>, ghost left: string, ghost text: string, ghost right: string)
    ensures var all := Flatten(chunks); kept == if |all| <= 8192 then all else all[|all| - 8192..]
    ensures report.Some? <==> code != 0 && !AllBlank(blank, kept)
    ensures kept == left + text + right && AllBlank(blank, left) && AllBlank(blank, right)
    ensures text != "" ==> !blank(text[0]) && !blank(text[|text| - 1])
    ensures report.Some? ==> report.value == if |text| <= 1000 then text else text[..1000]
  {
    var c := new Capture();
    for i := 0 to |chunks|
      invariant c.Valid() && fresh(c)
      invariant c.seen == Flatten(chunks[..i])
    {
      FlattenSnoc(chunks[..i], chunks[i]);
      assert chunks[..i + 1] == chunks[..i] + [chunks[i]];
      c.OnData(chunks[i]);
    }
    assert chunks[..|chunks|] == chunks;
    kept := c.buf;
    report := Report(blank, code, kept);
    left, right := StripDropsBlanks(blank, kept);
    text := Strip(blank, kept);
  }
}
