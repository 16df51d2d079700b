/** The room list: the "p/b/l/n" population summary and the status text shown
    next to each room, the list of room names (database rooms and running
    rooms, sorted without duplicates), the pruning of stopped rooms, and the
    three-state key handling of the room list screen. */
module Rooms {
  import opened Base

  // ---------------------------------------------------------------------------
  // Sessions and the population summary

  datatype SessionType = Agent | Account | Bot

  /** What the summary looks at in a session: its type (unknown for some
      ids) and its nick. */
  datatype Session = Session(sessionType: Option<SessionType>, name: string)

  /** A joined room: the own session plus the other sessions of the listing,
      in the order the listing yields them. */
  datatype Joined = Joined(session: Session, listing: seq<Session>)

  /** The four categories: people, bots, lurkers (no nick) and nurkers (bots
      without a nick). */
  datatype Category = People | Bots | Lurkers | Nurkers

  function CategoryOf(sess: Session): (r: Category)
    ensures r == Lurkers || r == Nurkers <==> |sess.name| == 0
    ensures r == Bots || r == Nurkers <==> sess.sessionType == Some(Bot)
  {
    match sess.sessionType
    case Some(Bot) => if |sess.name| == 0 then Nurkers else Bots
    case _ => if |sess.name| == 0 then Lurkers else People
  }

  datatype Counts = Counts(p: nat, b: nat, l: nat, n: nat)

  function Total(c: Counts): nat {
    c.p + c.b + c.l + c.n
  }

  /** The number of sessions of `ss` in category `k`. */
  function CountOf(ss: seq<Session>, k: Category): nat {
    if |ss| == 0 then 0
    else (if CategoryOf(ss[0]) == k then 1 else 0) + CountOf(ss[1..], k)
  }

  /** Every session lands in exactly one category. */
  lemma {:induction false} EachSessionCountedOnce(ss: seq<Session>)
    ensures CountOf(ss, People) + CountOf(ss, Bots) + CountOf(ss, Lurkers) + CountOf(ss, Nurkers) == |ss|
  {
    if |ss| > 0 {
      EachSessionCountedOnce(ss[1..]);
    }
  }

  /** The counts of the sessions of `ss` per category. */
  function Tally(ss: seq<Session>): (c: Counts)
    ensures Total(c) == |ss|
  {
    EachSessionCountedOnce(ss);
    Counts(CountOf(ss, People), CountOf(ss, Bots), CountOf(ss, Lurkers), CountOf(ss, Nurkers))
  }

  /** Everyone `format_pbln` counts: the own session first, then the
      listing. */
  function Everyone(j: Joined): seq<Session> {
    [j.session] + j.listing
  }

  /** Own session plus listing: p + b + l + n is one more than the size of
      the listing. */
  lemma PblnCountsEveryone(j: Joined)
    ensures Total(Tally(Everyone(j))) == |j.listing| + 1
  {
  }

  lemma {:induction false} CountConcat(a: seq<Session>, b: seq<Session>, k: Category)
    ensures CountOf(a + b, k) == CountOf(a, k) + CountOf(b, k)
    decreases |a|
  {
    if |a| == 0 {
      assert a + b == b;
    } else {
      assert (a + b)[1..] == a[1..] + b;
      CountConcat(a[1..], b, k);
    }
  }

  /** Counting one more session adds one to its category's count. */
  lemma CountSnoc(ss: seq<Session>, x: Session, k: Category)
    ensures CountOf(ss + [x], k) == CountOf(ss, k) + (if CategoryOf(x) == k then 1 else 0)
  {
    CountConcat(ss, [x], k);
    assert [x][1..] == [];
  }

  /** Taking the session at `i` out of `b` takes it out of its count. */
  lemma CountRemove(b: seq<Session>, i: nat, k: Category)
    requires i < |b|
    ensures CountOf(b, k) == (if CategoryOf(b[i]) == k then 1 else 0) + CountOf(b[..i] + b[i + 1..], k)
  {
    assert b == b[..i] + [b[i]] + b[i + 1..];
    CountConcat(b[..i] + [b[i]], b[i + 1..], k);
    CountConcat(b[..i], [b[i]], k);
    CountConcat(b[..i], b[i + 1..], k);
  }

  lemma MultisetRemove(b: seq<Session>, i: nat)
    requires i < |b|
    ensures multiset(b[..i] + b[i + 1..]) == multiset(b) - multiset{b[i]}
  {
    assert b == b[..i] + [b[i]] + b[i + 1..];
    assert multiset(b) == multiset(b[..i]) + multiset{b[i]} + multiset(b[i + 1..]);
  }

  /** The first position of `x` in `s`. */
  function Position(s: seq<Session>, x: Session): (i: nat)
    requires x in s
    ensures i < |s| && s[i] == x
  {
    if s[0] == x then 0 else 1 + Position(s[1..], x)
  }

  lemma MultisetTail(a: seq<Session>)
    requires |a| > 0
    ensures multiset(a[1..]) == multiset(a) - multiset{a[0]}
  {
    assert a == [a[0]] + a[1..];
  }

  /** Taking the same session out of two permutations of each other leaves
      permutations of each other. */
  lemma PermutationTail(a: seq<Session>, b: seq<Session>, i: nat)
    requires multiset(a) == multiset(b) && |a| > 0 && i < |b| && b[i] == a[0]
    ensures multiset(a[1..]) == multiset(b[..i] + b[i + 1..])
  {
    calc {
      multiset(a[1..]);
      == { MultisetTail(a); }
      multiset(a) - multiset{a[0]};
      == multiset(b) - multiset{b[i]};
      == { MultisetRemove(b, i); }
      multiset(b[..i] + b[i + 1..]);
    }
  }

  lemma {:induction false} CountPermutation(a: seq<Session>, b: seq<Session>, k: Category)
    requires multiset(a) == multiset(b)
    ensures CountOf(a, k) == CountOf(b, k)
    decreases |a|
  {
    if |a| > 0 {
      assert a[0] in multiset(b);
      var i := Position(b, a[0]);
      PermutationTail(a, b, i);
      CountPermutation(a[1..], b[..i] + b[i + 1..], k);
      CountRemove(b, i, k);
    } else {
      assert |multiset(b)| == |multiset(a)| == 0;
      assert b == [];
    }
  }

  /** The counts do not depend on the order in which the listing is
      visited (a hash map's values come in no particular order). */
  lemma TallyPermutation(a: seq<Session>, b: seq<Session>)
    requires multiset(a) == multiset(b)
    ensures Tally(a) == Tally(b)
  {
    CountPermutation(a, b, People);
    CountPermutation(a, b, Bots);
    CountPermutation(a, b, Lurkers);
    CountPermutation(a, b, Nurkers);
  }

  // ---------------------------------------------------------------------------
  // Decimal numbers and joining

  predicate IsDigit(c: char) {
    '0' <= c <= '9'
  }

  predicate AllDigits(s: string) {
    forall i :: 0 <= i < |s| ==> IsDigit(s[i])
  }

  function DigitChar(d: nat): (c: char)
    requires d < 10
    ensures IsDigit(c)
  {
    ('0' as int + d) as char
  }

  /** `format!("{n}")` for an unsigned number: its decimal digits, without
      leading zeros. */
  function Decimal(n: nat): (s: string)
    ensures |s| > 0 && AllDigits(s)
    ensures n >= 10 <==> |s| > 1
    ensures n > 0 ==> s[0] != '0'
    decreases n
  {
    if n < 10 then [DigitChar(n)] else Decimal(n / 10) + [DigitChar(n % 10)]
  }

  function ParseDecimal(s: string): nat
    requires AllDigits(s)
  {
    if |s| == 0 then 0
    else 10 * ParseDecimal(s[..|s| - 1]) + (s[|s| - 1] as int - '0' as int)
  }

  lemma {:induction false} DecimalRoundTrip(n: nat)
    ensures ParseDecimal(Decimal(n)) == n
    decreases n
  {
    if n >= 10 {
      var d := Decimal(n);
      assert d[..|d| - 1] == Decimal(n / 10);
      DecimalRoundTrip(n / 10);
    }
  }

  /** `slice.join(sep)`. */
  function Join(parts: seq<string>, sep: string): string {
    if |parts| == 0 then ""
    else if |parts| == 1 then parts[0]
    else parts[0] + sep + Join(parts[1..], sep)
  }

  // ---------------------------------------------------------------------------
  // format_pbln

  /** The piece for one category: the count and its letter, left out when
      the count is zero. */
  function Piece(count: nat, letter: char): seq<string> {
    if count > 0 then [Decimal(count) + [letter]] else []
  }

  /** The pieces in the fixed order p, b, l, n. */
  function Pieces(c: Counts): seq<string> {
    Piece(c.p, 'p') + Piece(c.b, 'b') + Piece(c.l, 'l') + Piece(c.n, 'n')
  }

  /** The text `format_pbln` produces for the counts `c`. */
  function PblnText(c: Counts): string {
    Join(Pieces(c), " ")
  }

  /** The counting loop of format_pbln: one pass over the sessions, each
      counted in its category. */
  method CountCategories(all: seq<Session>) returns (counts: Counts)
    ensures counts == Tally(all)
  {
    var p, b, l, n := 0, 0, 0, 0;
    for i := 0 to |all|
      invariant p == CountOf(all[..i], People)
      invariant b == CountOf(all[..i], Bots)
      invariant l == CountOf(all[..i], Lurkers)
      invariant n == CountOf(all[..i], Nurkers)
    {
      var sess := all[i];
      assert all[..i + 1] == all[..i] + [sess];
      CountSnoc(all[..i], sess, People);
      CountSnoc(all[..i], sess, Bots);
      CountSnoc(all[..i], sess, Lurkers);
      CountSnoc(all[..i], sess, Nurkers);
      match sess.sessionType {
        case Some(Bot) =>
          if |sess.name| == 0 {
            assert CategoryOf(sess) == Nurkers;
            n := n + 1;
          } else {
            assert CategoryOf(sess) == Bots;
            b := b + 1;
          }
        case _ =>
          if |sess.name| == 0 {
            assert CategoryOf(sess) == Lurkers;
            l := l + 1;
          } else {
            assert CategoryOf(sess) == People;
            p := p + 1;
          }
      }
    }
    assert all[..|all|] == all;
    return Counts(p, b, l, n);
  }

  /** format_pbln: categorise and count everyone, then print the nonzero
      counts in the order p, b, l, n, separated by single spaces. */
  method FormatPbln(joined: Joined) returns (s: string)
    ensures s == PblnText(Tally(Everyone(joined)))
  {
    var counts := CountCategories(Everyone(joined));
    var result: seq<string> := [];
    if counts.p > 0 {
      result := result + [Decimal(counts.p) + "p"];
    }
    assert result == Piece(counts.p, 'p');
    if counts.b > 0 {
      result := result + [Decimal(counts.b) + "b"];
    }
    assert result == Piece(counts.p, 'p') + Piece(counts.b, 'b');
    if counts.l > 0 {
      result := result + [Decimal(counts.l) + "l"];
    }
    assert result == Piece(counts.p, 'p') + Piece(counts.b, 'b') + Piece(counts.l, 'l');
    if counts.n > 0 {
      result := result + [Decimal(counts.n) + "n"];
    }
    assert result == Pieces(counts);
    return Join(result, " ");
  }

  /** The summary of a joined room is never empty and starts with a digit:
      the own session is always counted. */
  lemma PblnNonEmpty(j: Joined)
    ensures var s := PblnText(Tally(Everyone(j)));
      |s| > 0 && IsDigit(s[0])
  {
    var c := Tally(Everyone(j));
    var ps := Pieces(c);
    assert |ps| > 0;
    assert |ps[0]| > 0 && IsDigit(ps[0][0]);
  }

  // Reading a summary back ---------------------------------------------------

  function FirstSpace(s: string): (r: Option<nat>)
    ensures r.Some? ==> r.value < |s| && s[r.value] == ' '
    ensures r.Some? ==> forall j :: 0 <= j < r.value ==> s[j] != ' '
    ensures r.None? ==> forall j :: 0 <= j < |s| ==> s[j] != ' '
  {
    if |s| == 0 then None
    else if s[0] == ' ' then Some(0)
    else match FirstSpace(s[1..])
      case None => None
      case Some(k) => Some(k + 1)
  }

  function SplitTokens(s: string): seq<string>
    decreases |s|
  {
    match FirstSpace(s)
    case None => [s]
    case Some(i) => [s[..i]] + SplitTokens(s[i + 1..])
  }

  /** Splitting at single spaces. */
  function Split(s: string): seq<string> {
    if |s| == 0 then [] else SplitTokens(s)
  }

  predicate NoSpace(s: string) {
    forall i :: 0 <= i < |s| ==> s[i] != ' '
  }

  /** In a word without spaces followed by a space, that space is the first. */
  lemma FirstSpaceAfterWord(x: string, rest: string)
    requires NoSpace(x)
    ensures FirstSpace(x + " " + rest) == Some(|x|)
  {
    var s := x + " " + rest;
    assert s[|x|] == ' ';
    assert forall j :: 0 <= j < |x| ==> s[j] == x[j];
  }

  lemma {:induction false} SplitJoin(parts: seq<string>)
    requires |parts| > 0 && forall i :: 0 <= i < |parts| ==> NoSpace(parts[i])
    ensures SplitTokens(Join(parts, " ")) == parts
    decreases |parts|
  {
    if |parts| > 1 {
      var x := parts[0];
      var rest := Join(parts[1..], " ");
      var s := x + " " + rest;
      FirstSpaceAfterWord(x, rest);
      assert s[..|x|] == x;
      assert s[|x| + 1..] == rest;
      SplitJoin(parts[1..]);
    }
  }

  /** Sets the count named by the token's letter. */
  function ApplyToken(tok: string, acc: Counts): Option<Counts> {
    if |tok| < 2 || !AllDigits(tok[..|tok| - 1]) then None
    else
      var v := ParseDecimal(tok[..|tok| - 1]);
      match tok[|tok| - 1]
      case 'p' => Some(acc.(p := v))
      case 'b' => Some(acc.(b := v))
      case 'l' => Some(acc.(l := v))
      case 'n' => Some(acc.(n := v))
      case _ => None
  }

  function ApplyTokens(toks: seq<string>, acc: Counts): Option<Counts>
    decreases |toks|
  {
    if |toks| == 0 then Some(acc)
    else match ApplyToken(toks[0], acc)
      case None => None
      case Some(a) => ApplyTokens(toks[1..], a)
  }

  /** Reads the counts back from a summary; missing categories count zero. */
  function ParsePbln(s: string): Option<Counts> {
    ApplyTokens(Split(s), Counts(0, 0, 0, 0))
  }

  lemma {:induction false} ApplyTokensConcat(a: seq<string>, b: seq<string>, acc: Counts)
    ensures ApplyTokens(a + b, acc) ==
      match ApplyTokens(a, acc)
      case None => None
      case Some(x) => ApplyTokens(b, x)
    decreases |a|
  {
    if |a| > 0 {
      assert (a + b)[1..] == a[1..] + b;
      match ApplyToken(a[0], acc)
      case None =>
      case Some(x) => ApplyTokensConcat(a[1..], b, x);
    } else {
      assert a + b == b;
    }
  }

  lemma ApplyPiece(count: nat, letter: char, acc: Counts)
    requires letter in "pbln"
    ensures ApplyTokens(Piece(count, letter), acc) ==
      if count == 0 then Some(acc)
      else Some(match letter
        case 'p' => acc.(p := count)
        case 'b' => acc.(b := count)
        case 'l' => acc.(l := count)
        case _ => acc.(n := count))
  {
    if count > 0 {
      var tok := Decimal(count) + [letter];
      assert tok[..|tok| - 1] == Decimal(count);
      DecimalRoundTrip(count);
      assert Piece(count, letter)[1..] == [];
    }
  }

  /** Nonempty words without spaces, as the pieces of a summary are. */
  predicate Words(ps: seq<string>) {
    forall i :: 0 <= i < |ps| ==> NoSpace(ps[i]) && |ps[i]| > 0
  }

  lemma PieceWords(count: nat, letter: char)
    requires letter != ' '
    ensures Words(Piece(count, letter))
  {
    if count > 0 {
      var d := Decimal(count);
      var w := d + [letter];
      forall j | 0 <= j < |w|
        ensures w[j] != ' '
      {
        if j < |d| {
          assert w[j] == d[j] && IsDigit(d[j]);
        }
      }
    }
  }

  lemma WordsConcat(a: seq<string>, b: seq<string>)
    requires Words(a) && Words(b)
    ensures Words(a + b)
  {
    forall i | 0 <= i < |a + b|
      ensures NoSpace((a + b)[i]) && |(a + b)[i]| > 0
    {
      if i < |a| {
        assert (a + b)[i] == a[i];
      } else {
        assert (a + b)[i] == b[i - |a|];
      }
    }
  }

  /** Splitting a summary at its spaces gives back its pieces. */
  lemma SplitPblnText(c: Counts)
    ensures Split(PblnText(c)) == Pieces(c)
  {
    var pp, pb, pl, pn := Piece(c.p, 'p'), Piece(c.b, 'b'), Piece(c.l, 'l'), Piece(c.n, 'n');
    PieceWords(c.p, 'p');
    PieceWords(c.b, 'b');
    PieceWords(c.l, 'l');
    PieceWords(c.n, 'n');
    WordsConcat(pp, pb);
    WordsConcat(pp + pb, pl);
    WordsConcat(pp + pb + pl, pn);
    var ps := Pieces(c);
    if |ps| > 0 {
      SplitJoin(ps);
      assert |Join(ps, " ")| > 0 by {
        assert |ps[0]| > 0;
      }
    }
  }

  /** The summary text determines the four counts. */
  lemma PblnRoundTrip(c: Counts)
    ensures ParsePbln(PblnText(c)) == Some(c)
  {
    var pp, pb, pl, pn := Piece(c.p, 'p'), Piece(c.b, 'b'), Piece(c.l, 'l'), Piece(c.n, 'n');
    SplitPblnText(c);
    assert Split(PblnText(c)) == pp + pb + pl + pn;
    var z := Counts(0, 0, 0, 0);
    ApplyTokensConcat(pp + pb + pl, pn, z);
    ApplyTokensConcat(pp + pb, pl, z);
    ApplyTokensConcat(pp, pb, z);
    ApplyPiece(c.p, 'p', z);
    var z1 := z.(p := c.p);
    ApplyPiece(c.b, 'b', z1);
    var z2 := z1.(b := c.b);
    ApplyPiece(c.l, 'l', z2);
    var z3 := z2.(l := c.l);
    ApplyPiece(c.n, 'n', z3);
  }

  // ---------------------------------------------------------------------------
  // format_status

  /** A room's connection status: joining (possibly held up by a bounce,
      which asks for a password) or joined. */
  datatype Status = Joining(bounced: bool) | InRoom(joined: Joined)

  /** format_status; `None` is a room whose connection is not up yet. */
  function FormatStatus(status: Option<Status>): (r: string)
    ensures |r| >= 3 && r[..2] == " (" && r[|r| - 1] == ')'
  {
    match status
    case None => " (connecting)"
    case Some(Joining(bounced)) => if bounced then " (auth required)" else " (joining)"
    case Some(InRoom(j)) => " (" + PblnText(Tally(Everyone(j))) + ")"
  }

  /** What a status text tells about the status. */
  datatype StatusSummary = Connecting | AuthRequired | JoiningRoom | Populated(counts: Counts)

  function Summary(status: Option<Status>): StatusSummary {
    match status
    case None => Connecting
    case Some(Joining(bounced)) => if bounced then AuthRequired else JoiningRoom
    case Some(InRoom(j)) => Populated(Tally(Everyone(j)))
  }

  function ParseStatus(t: string): Option<StatusSummary> {
    if t == " (connecting)" then Some(Connecting)
    else if t == " (auth required)" then Some(AuthRequired)
    else if t == " (joining)" then Some(JoiningRoom)
    else if |t| >= 3 && t[..2] == " (" && t[|t| - 1] == ')' then
      match ParsePbln(t[2..|t| - 1])
      case None => None
      case Some(c) => Some(Populated(c))
    else None
  }

  /** A joined room's text is none of the other three. */
  lemma PopulatedText(j: Joined)
    ensures var t := " (" + PblnText(Tally(Everyone(j))) + ")";
      && t != " (connecting)" && t != " (auth required)" && t != " (joining)"
      && |t| >= 3 && t[..2] == " (" && t[|t| - 1] == ')'
      && t[2..|t| - 1] == PblnText(Tally(Everyone(j)))
  {
    var pbln := PblnText(Tally(Everyone(j)));
    var t := " (" + pbln + ")";
    PblnNonEmpty(j);
    assert t[2] == pbln[0];
    assert " (connecting)"[2] == 'c';
    assert " (auth required)"[2] == 'a';
    assert " (joining)"[2] == 'j';
    assert t[..2] == " (";
    assert t[2..|t| - 1] == pbln;
  }

  /** The four kinds of status text never collide, and a joined room's text
      gives back its counts. */
  lemma StatusRoundTrip(status: Option<Status>)
    ensures ParseStatus(FormatStatus(status)) == Some(Summary(status))
  {
    if status.Some? && status.value.InRoom? {
      var j := status.value.joined;
      PopulatedText(j);
      PblnRoundTrip(Tally(Everyone(j)));
    }
  }

  /** Equal status texts mean the same kind of status and the same counts. */
  lemma StatusTextInjective(x: Option<Status>, y: Option<Status>)
    requires FormatStatus(x) == FormatStatus(y)
    ensures Summary(x) == Summary(y)
  {
    StatusRoundTrip(x);
    StatusRoundTrip(y);
  }
}
