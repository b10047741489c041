/** The event log (src/engine/log.rs). The Rust crate keeps one history
    behind a process-wide mutex; here the history is an explicit value that
    every narrating operation takes and returns, and the lock disappears. */
module Log {
  import opened Wrappers
  import opened Decimal

  type History = seq<string>

  /** The retention cap the source declares. No operation enforces it:
      `AddToLog` always grows the history by one. */
  const HISTORY_LIMIT: nat := 300

  /** How many entries `tail` reads. */
  const TAIL_LENGTH: nat := 10

  function Min(a: int, b: int): int { if a <= b then a else b }

  /** `add_to_log`: pushes one raw text. */
  function AddToLog(h: History, text: string): (r: History)
    ensures |r| == |h| + 1
    ensures r[..|h|] == h
    ensures r[|h|] == text
  {
    h + [text]
  }

  /** `actor_attack`: pushes "{attacker} attacks {defender}.". */
  function ActorAttack(h: History, attacker: string, defender: string): (r: History)
    ensures |r| == |h| + 1
    ensures r[..|h|] == h
    ensures r[|h|] == attacker + " attacks " + defender + "."
  {
    AddToLog(h, attacker + " attacks " + defender + ".")
  }

  /** The text `actor_pos_update` formats: "{actor} moved to {x}/{y}". */
  function PosUpdateText(name: string, x: int, y: int): string
  {
    name + " moved to " + IntText(x) + "/" + IntText(y)
  }

  /** The position a "moved to" entry written for `name` reports, or None
      when the entry is not of that form. */
  function PositionOfEntry(name: string, entry: string): Option<(int, int)>
  {
    var prefix := name + " moved to ";
    if |entry| < |prefix| || entry[..|prefix|] != prefix then None
    else ParsePosition(entry[|prefix|..])
  }

  /** "{x}/{y}" read back as `(x, y)`, split at the first '/'. */
  function ParsePosition(rest: string): Option<(int, int)>
  {
    match FirstIndex(rest, '/')
    case None => None
    case Some(k) =>
      match (ParseInt(rest[..k]), ParseInt(rest[k + 1..]))
      case (Some(x), Some(y)) => Some((x, y))
      case _ => None
  }

  /** The first position of `c` in `s`. */
  function FirstIndex(s: string, c: char): (r: Option<nat>)
    ensures r.None? <==> c !in s
    ensures r.Some? ==> r.value < |s| && s[r.value] == c && c !in s[..r.value]
  {
    if |s| == 0 then None
    else if s[0] == c then Some(0)
    else match FirstIndex(s[1..], c)
      case None => None
      case Some(k) => assert s[..k + 1] == [s[0]] + s[1..][..k]; Some(k + 1)
  }

  /** Integer text never contains the separator '/'. */
  lemma NoSlashInIntText(s: string)
    requires IsIntText(s)
    ensures '/' !in s
  {
  }

  /** The first `c` of `a + [c] + b` is the one after `a` when `a` has none. */
  lemma {:induction false} FirstIndexAfter(a: string, c: char, b: string)
    requires c !in a
    ensures FirstIndex(a + [c] + b, c) == Some(|a|)
  {
    var s := a + [c] + b;
    if |a| > 0 {
      assert s[1..] == a[1..] + [c] + b;
      FirstIndexAfter(a[1..], c, b);
    }
  }

  /** "{x}/{y}" splits at its only '/' back into `x` and `y`. */
  lemma PairRoundTrip(x: int, y: int)
    ensures ParsePosition(IntText(x) + "/" + IntText(y)) == Some((x, y))
  {
    var tx, ty := IntText(x), IntText(y);
    var rest := tx + "/" + ty;
    NoSlashInIntText(tx);
    FirstIndexAfter(tx, '/', ty);
    assert rest[..|tx|] == tx;
    assert rest[|tx| + 1..] == ty;
    IntTextRoundTrip(x);
    IntTextRoundTrip(y);
  }

  /** A "moved to" entry carries exactly the position it was formatted from. */
  lemma PosUpdateRoundTrip(name: string, x: int, y: int)
    ensures PositionOfEntry(name, PosUpdateText(name, x, y)) == Some((x, y))
  {
    var prefix := name + " moved to ";
    var e := PosUpdateText(name, x, y);
    var rest := IntText(x) + "/" + IntText(y);
    assert e == prefix + rest;
    assert e[..|prefix|] == prefix;
    assert e[|prefix|..] == rest;
    PairRoundTrip(x, y);
  }

  /** `actor_pos_update`: pushes "{actor} moved to {x}/{y}". */
  function ActorPosUpdate(h: History, name: string, x: int, y: int): (r: History)
    ensures |r| == |h| + 1
    ensures r[..|h|] == h
    ensures r[|h|] == PosUpdateText(name, x, y)
    ensures PositionOfEntry(name, r[|h|]) == Some((x, y))
  {
    PosUpdateRoundTrip(name, x, y);
    AddToLog(h, PosUpdateText(name, x, y))
  }

  /** `tail`: reads indices 0 to 9 of the history, skipping those that do
      not exist. These are the OLDEST entries, in insertion order, despite
      the name; the history itself is not changed. Printing each entry is
      not modelled. */
  method Tail(h: History) returns (r: History)
    ensures |r| <= TAIL_LENGTH
    ensures r == h[..Min(TAIL_LENGTH, |h|)]
  {
    r := [];
    var n := 0;
    while n < TAIL_LENGTH
      invariant 0 <= n <= TAIL_LENGTH
      invariant r == h[..Min(n, |h|)]
    {
      if n < |h| {
        r := r + [h[n]];
      }
      n := n + 1;
    }
  }
}
