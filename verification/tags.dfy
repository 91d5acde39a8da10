/** Service identities (`Tag`) and the counter that names them.

    A tag is nothing but its id string; the service type it stands for is a
    static-typing device with no runtime representation and is dropped.
    Tags built without an explicit id draw the next value of one counter
    that starts at 0 and is shared by every tag of the program, rendered as
    a decimal string.
 */
module Tags {

  /** A service slot. Equal ids make equal tags, as for a frozen dataclass. */
  datatype Tag = Tag(id: string)

  /** `Tag.new(id)`: a tag carrying exactly the caller's id. */
  function New(id: string): (t: Tag)
    ensures t.id == id
    ensures forall u: Tag :: u.id == id ==> u == t
  {
    Tag(id)
  }

  // ---------------------------------------------------------------------
  // Decimal rendering of the counter (Python's `str` on a natural number)
  // ---------------------------------------------------------------------

  predicate IsDigit(ch: char) {
    '0' <= ch <= '9'
  }

  function DigitChar(d: nat): (ch: char)
    requires d < 10
    ensures IsDigit(ch)
  {
    (48 + d) as char
  }

  function DigitValue(ch: char): (d: nat)
    requires IsDigit(ch)
    ensures d < 10
  {
    ch as int - 48
  }

  /** The decimal digits of `n`, most significant first, without leading zeros. */
  function NatToString(n: nat): (s: string)
    ensures |s| > 0
    ensures forall i :: 0 <= i < |s| ==> IsDigit(s[i])
    ensures s[0] == '0' ==> n == 0
  {
    if n < 10 then [DigitChar(n)] else NatToString(n / 10) + [DigitChar(n % 10)]
  }

  /** Reads a non-empty string of decimal digits back as a number. */
  function ParseNat(s: string): nat
    requires |s| > 0
    requires forall i :: 0 <= i < |s| ==> IsDigit(s[i])
  {
    if |s| == 1 then DigitValue(s[0])
    else 10 * ParseNat(s[..|s| - 1]) + DigitValue(s[|s| - 1])
  }

  /** Reading the rendering of `n` gives `n` back. */
  lemma {:induction false} ParseNatToString(n: nat)
    ensures ParseNat(NatToString(n)) == n
  {
    if n >= 10 {
      var s := NatToString(n);
      assert s[..|s| - 1] == NatToString(n / 10);
      ParseNatToString(n / 10);
    }
  }

  /** Distinct counter values are rendered as distinct ids. */
  lemma NatToStringInjective(m: nat, n: nat)
    requires NatToString(m) == NatToString(n)
    ensures m == n
  {
    ParseNatToString(m);
    ParseNatToString(n);
  }

  // ---------------------------------------------------------------------
  // The shared id counter
  // ---------------------------------------------------------------------

  /** The state of the one counter behind every auto-generated tag:
      `next` is the value the next tag will receive. */
  datatype IdGen = IdGen(next: nat)

  /** The counter as it stands when the program starts. */
  const Start: IdGen := IdGen(0)

  /** The ids handed out so far by a counter in state `g`. */
  ghost function Issued(g: IdGen): set<string> {
    set k | 0 <= k < g.next :: NatToString(k)
  }

  lemma NextIdIsFresh(g: IdGen)
    ensures NatToString(g.next) !in Issued(g)
  {
    if NatToString(g.next) in Issued(g) {
      var k :| 0 <= k < g.next && NatToString(k) == NatToString(g.next);
      NatToStringInjective(k, g.next);
    }
  }

  /** `Tag()`: a tag whose id is the counter's next value; the counter advances. */
  function Fresh(g: IdGen): (r: (Tag, IdGen))
    ensures r.0.id !in Issued(g)
    ensures Issued(r.1) == Issued(g) + {r.0.id}
    ensures ParseNat(r.0.id) == g.next
  {
    NextIdIsFresh(g);
    ParseNatToString(g.next);
    var t := Tag(NatToString(g.next));
    var g' := IdGen(g.next + 1);
    assert Issued(g') == Issued(g) + {t.id} by {
      forall s | s in Issued(g')
        ensures s in Issued(g) + {t.id}
      {
        var k :| 0 <= k < g'.next && NatToString(k) == s;
        if k < g.next {
          assert s in Issued(g);
        }
      }
    }
    (t, g')
  }

  /** `n` successive auto-generated tags. */
  function FreshTags(g: IdGen, n: nat): (r: (seq<Tag>, IdGen))
    ensures |r.0| == n
    ensures forall i, j :: 0 <= i < j < n ==> r.0[i].id != r.0[j].id
    ensures forall i :: 0 <= i < n ==> r.0[i].id !in Issued(g) && r.0[i].id in Issued(r.1)
    ensures Issued(g) <= Issued(r.1)
    decreases n
  {
    if n == 0 then ([], g)
    else
      var (t, g1) := Fresh(g);
      var (ts, g2) := FreshTags(g1, n - 1);
      ([t] + ts, g2)
  }

  /** Two tags drawn one after the other from the counter never share an id. */
  lemma FreshTagsDistinct(g: IdGen)
    ensures Fresh(g).0 != Fresh(Fresh(g).1).0
  {
    assert Fresh(g).0.id in Issued(Fresh(g).1);
  }

  /** The counter's first ids are "0", "1", ..., and "10" has two digits. */
  lemma FirstIds()
    ensures Fresh(Start).0 == Tag("0")
    ensures Fresh(Fresh(Start).1).0 == Tag("1")
    ensures NatToString(10) == "10"
  {
  }
}
