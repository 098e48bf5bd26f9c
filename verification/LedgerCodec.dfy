/**
 A codec whose digests never collide: the fields one after the other, each in a code in which no text is the beginning
 of another's. It accepts every record, so what is proved of collision-free codecs is proved of something.
 */
module LedgerCodec {
  import opened Prelude
  import opened Ledger

  function Coded(s: string): string {
    if s == "" then "." else ['x', s[0]] + Coded(s[1..])
  }

  function CodedAll(fields: seq<string>): string {
    if fields == [] then "" else Coded(fields[0]) + CodedAll(fields[1..])
  }

  lemma {:induction false} CodedEnds(a: string, b: string, x: string, y: string)
    requires Coded(a) + x == Coded(b) + y
    ensures a == b && x == y
  {
    assert (Coded(a) + x)[0] == (Coded(b) + y)[0];
    if a == "" || b == "" {
      assert (Coded(a) + x)[1..] == x && (Coded(b) + y)[1..] == y;
    } else {
      assert (Coded(a) + x)[1] == a[0] && (Coded(b) + y)[1] == b[0];
      assert (Coded(a) + x)[2..] == Coded(a[1..]) + x && (Coded(b) + y)[2..] == Coded(b[1..]) + y;
      CodedEnds(a[1..], b[1..], x, y);
      assert a == [a[0]] + a[1..] && b == [b[0]] + b[1..];
    }
  }

  lemma {:induction false} CodedApart(f: seq<string>, g: seq<string>)
    requires |f| == |g| && CodedAll(f) == CodedAll(g)
    ensures f == g
  {
    if f != [] {
      CodedEnds(f[0], g[0], CodedAll(f[1..]), CodedAll(g[1..]));
      CodedApart(f[1..], g[1..]);
      assert f == [f[0]] + f[1..] && g == [g[0]] + g[1..];
    }
  }

  function OptionalText(s: Option<string>): string {
    if s.None? then "" else "x" + s.value
  }

  function DecisionFields(d: Decision): seq<string> {
    [d.id, d.reviewId, d.createdAt, d.operator, d.status, d.rationale, OptionalText(d.supersedes), d.reviewHash, d.evidenceHash]
  }

  function ReviewFields(r: Review): seq<string> {
    if r.Authoritative? then [r.id, r.runId, r.evidenceHash, r.body] else []
  }

  const PLAIN := Codec((d: Decision) => CodedAll(DecisionFields(d)), (r: Review) => CodedAll(ReviewFields(r)),
                       (d: Decision) => true, (r: Review) => true, (q: Request) => true)

  lemma SameFields(a: Decision, b: Decision)
    requires DecisionFields(a) == DecisionFields(b)
    ensures a.(recordHash := "") == b.(recordHash := "")
  {
    var f, g := DecisionFields(a), DecisionFields(b);
    assert f[0] == g[0] && f[1] == g[1] && f[2] == g[2] && f[3] == g[3] && f[4] == g[4] && f[5] == g[5] && f[7] == g[7] && f[8] == g[8];
    assert OptionalText(a.supersedes) == f[6] == g[6] == OptionalText(b.supersedes);
    if a.supersedes.Some? && b.supersedes.Some? {
      assert OptionalText(a.supersedes)[1..] == a.supersedes.value && OptionalText(b.supersedes)[1..] == b.supersedes.value;
    }
  }

  lemma PlainIsCollisionFree()
    ensures CollisionFree(PLAIN)
  {
    forall a: Decision, b: Decision | PLAIN.decisionDigest(a.(recordHash := "")) == PLAIN.decisionDigest(b.(recordHash := ""))
      ensures a.(recordHash := "") == b.(recordHash := "")
    {
      CodedApart(DecisionFields(a.(recordHash := "")), DecisionFields(b.(recordHash := "")));
      SameFields(a.(recordHash := ""), b.(recordHash := ""));
    }
    forall a: Review, b: Review | a.Authoritative? && b.Authoritative?
                                  && PLAIN.reviewDigest(a.(recordHash := "")) == PLAIN.reviewDigest(b.(recordHash := ""))
      ensures a.(recordHash := "") == b.(recordHash := "")
    {
      CodedApart(ReviewFields(a.(recordHash := "")), ReviewFields(b.(recordHash := "")));
      var f, g := ReviewFields(a), ReviewFields(b);
      assert f[0] == g[0] && f[1] == g[1] && f[2] == g[2] && f[3] == g[3];
    }
  }
}
