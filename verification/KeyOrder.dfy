/** The order of messages in a chat: by timestamp, and by message id within a timestamp. */
module KeyOrder {
  datatype Key = Key(ts: int, id: string)

  /** Strict lexicographic order on ids. */
  predicate Precedes(s: string, t: string) {
    t != [] && (s == [] || s[0] < t[0] || (s[0] == t[0] && Precedes(s[1..], t[1..])))
  }

  predicate Older(a: Key, b: Key) {
    a.ts < b.ts || (a.ts == b.ts && Precedes(a.id, b.id))
  }

  lemma {:induction false} PrecedesIrreflexive(s: string)
    ensures !Precedes(s, s)
  {
    if s == [] {
    } else {
      PrecedesIrreflexive(s[1..]);
    }
  }

  lemma {:induction false} PrecedesTransitive(s: string, t: string, u: string)
    requires Precedes(s, t) && Precedes(t, u)
    ensures Precedes(s, u)
  {
    if s == [] || s[0] != t[0] || t[0] != u[0] {
    } else {
      PrecedesTransitive(s[1..], t[1..], u[1..]);
    }
  }

  lemma {:induction false} PrecedesTotal(s: string, t: string)
    ensures s == t || Precedes(s, t) || Precedes(t, s)
  {
    if s == [] || t == [] || s[0] != t[0] {
    } else {
      PrecedesTotal(s[1..], t[1..]);
      assert s == [s[0]] + s[1..] && t == [t[0]] + t[1..];
    }
  }

  /** The order is strict and total. */
  lemma OlderIsStrictTotal(a: Key, b: Key)
    ensures !Older(a, a)
    ensures a == b || Older(a, b) || Older(b, a)
    ensures !(Older(a, b) && Older(b, a))
  {
    PrecedesIrreflexive(a.id);
    PrecedesTotal(a.id, b.id);
    if Older(a, b) && Older(b, a) {
      PrecedesTransitive(a.id, b.id, a.id);
    }
  }

  lemma OlderTransitive(a: Key, b: Key, c: Key)
    requires Older(a, b) && Older(b, c)
    ensures Older(a, c)
  {
    if a.ts == b.ts == c.ts {
      PrecedesTransitive(a.id, b.id, c.id);
    }
  }
}
