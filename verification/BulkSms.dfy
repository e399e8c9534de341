/** Counting the parts of a text message, sharing a bulk send between two providers, and estimating it. */
module BulkSms {

  // ---------- the parts of one message ----------

  /** The basic alphabet of section 6.2.1 of 3GPP TS 23.038. */
  predicate Basic(c: char) {
    var n := c as int;
    || n == 0x0A || n == 0x0D || 0x20 <= n <= 0x5A || n == 0x5F || 0x61 <= n <= 0x7A
    || n == 0xA1 || 0xA3 <= n <= 0xA5 || n == 0xA7 || n == 0xBF
    || 0xC4 <= n <= 0xC7 || n == 0xC9 || n == 0xD1 || n == 0xD6 || n == 0xD8 || n == 0xDC || 0xDF <= n <= 0xE0
    || 0xE4 <= n <= 0xE6 || 0xE8 <= n <= 0xE9 || n == 0xEC || 0xF1 <= n <= 0xF2 || n == 0xF6 || 0xF8 <= n <= 0xF9
    || n == 0xFC || n == 0x393 || n == 0x394 || n == 0x398 || n == 0x39B || n == 0x39E || n == 0x3A0 || n == 0x3A3
    || n == 0x3A6 || 0x3A8 <= n <= 0x3A9
  }

  /** The extension table, whose characters take two units. */
  predicate Extended(c: char) {
    var n := c as int;
    n == 0x0C || 0x5B <= n <= 0x5E || 0x7B <= n <= 0x7E || n == 0x20AC
  }

  /** Of the printable ASCII characters all but the backtick can be sent in the basic encoding, eight of them as two units. */
  lemma PrintableAscii(c: char)
    requires 0x20 <= c as int <= 0x7E
    ensures Extended(c) <==> c in "^{}\\[]~|"
    ensures !Basic(c) && !Extended(c) <==> c == '`'
    ensures !(Basic(c) && Extended(c))
  {
  }

  /** The letters and signs of the basic encoding beyond ASCII: £¥èéùìòÇØøÅåΔΦΓΛΩΠΨΣΘΞÆæßÉ¤¡ÄÖÑÜ§¿äöñüà. */
  const SIGNS: set<char> := {
    '\U{00A3}', '\U{00A5}', '\U{00E8}', '\U{00E9}', '\U{00F9}', '\U{00EC}', '\U{00F2}', '\U{00C7}',
    '\U{00D8}', '\U{00F8}', '\U{00C5}', '\U{00E5}', '\U{0394}', '\U{03A6}', '\U{0393}', '\U{039B}',
    '\U{03A9}', '\U{03A0}', '\U{03A8}', '\U{03A3}', '\U{0398}', '\U{039E}', '\U{00C6}', '\U{00E6}',
    '\U{00DF}', '\U{00C9}', '\U{00A4}', '\U{00A1}', '\U{00C4}', '\U{00D6}', '\U{00D1}', '\U{00DC}',
    '\U{00A7}', '\U{00BF}', '\U{00E4}', '\U{00F6}', '\U{00F1}', '\U{00FC}', '\U{00E0}'
  }

  /** Beyond printable ASCII the basic encoding has those and line breaks. */
  lemma BeyondAscii(c: char)
    requires c as int < 0x20 || c as int > 0x7E
    ensures Basic(c) <==> c == '\n' || c == '\r' || c in SIGNS
    ensures Extended(c) <==> c == '\U{0C}' || c == '\U{20AC}'
    ensures !(Basic(c) && Extended(c))
  {
  }

  datatype Limits = Limits(single: nat, multi: nat, unicodeSingle: nat, unicodeMulti: nat)

  datatype Encoding = Gsm7 | Ucs2

  datatype Parts = Parts(chars: nat, encoding: Encoding, parts: nat, remaining: int)

  predicate AllGsm(text: string) {
    forall i :: 0 <= i < |text| ==> Basic(text[i]) || Extended(text[i])
  }

  function GsmUnits(text: string): (n: nat)
    ensures |text| <= n <= 2 * |text|
  {
    if text == "" then 0 else GsmUnits(text[..|text| - 1]) + if Extended(text[|text| - 1]) then 2 else 1
  }

  function Utf16Units(text: string): (n: nat)
    ensures |text| <= n <= 2 * |text|
  {
    if text == "" then 0 else Utf16Units(text[..|text| - 1]) + if text[|text| - 1] as int > 0xFFFF then 2 else 1
  }

  /** Rounded up. */
  function CeilDiv(a: nat, b: nat): nat
    requires b > 0
  {
    (a + b - 1) / b
  }

  predicate Usable(l: Limits) {
    l.multi > 0 && l.unicodeMulti > 0
  }

  /** How many parts carry `units`. */
  function PartsFor(units: nat, single: nat, multi: nat): nat
    requires multi > 0
  {
    if units == 0 then 0 else if units <= single then 1 else CeilDiv(units, multi)
  }

  function Room(units: nat, single: nat, multi: nat): int
    requires multi > 0
  {
    if units <= single then single - units else PartsFor(units, single, multi) * multi - units
  }

  function CountParts(text: string, l: Limits): Parts
    requires Usable(l)
  {
    if AllGsm(text) then
      var n := GsmUnits(text);
      Parts(n, Gsm7, PartsFor(n, l.single, l.multi), Room(n, l.single, l.multi))
    else
      var n := Utf16Units(text);
      Parts(n, Ucs2, PartsFor(n, l.unicodeSingle, l.unicodeMulti), Room(n, l.unicodeSingle, l.unicodeMulti))
  }

  lemma CeilDivLeast(a: nat, b: nat, p: nat)
    requires b > 0
    ensures p >= CeilDiv(a, b) <==> p * b >= a
  {
    var q := CeilDiv(a, b);
    var r := (a + b - 1) % b;
    assert a + b - 1 == q * b + r;
    if p >= q {
      TimesLe(q, p, b);
    } else {
      TimesLe(p, q - 1, b);
      assert (q - 1) * b == q * b - b;
    }
  }

  lemma TimesLe(x: int, y: int, b: nat)
    requires x <= y
    ensures x * b <= y * b
  {
  }

  /** The parts are as few as hold the message: what remains free is not negative, and in a long message less than a part. */
  lemma FewestParts(units: nat, single: nat, multi: nat)
    requires multi > 0 && units > single
    ensures 0 <= Room(units, single, multi) < multi
    ensures forall p: nat :: p >= PartsFor(units, single, multi) <==> p * multi >= units
  {
    forall p: nat
      ensures p >= PartsFor(units, single, multi) <==> p * multi >= units
    {
      CeilDivLeast(units, multi, p);
    }
    var q := CeilDiv(units, multi);
    CeilDivLeast(units, multi, q);
    CeilDivLeast(units, multi, 0);
    CeilDivLeast(units, multi, q - 1);
    assert (q - 1) * multi == q * multi - multi;
  }

  /** The positions of the characters that take two units in the basic encoding. */
  function ExtendedAt(text: string): (s: set<nat>) {
    set i: nat | i < |text| && Extended(text[i])
  }

  /** The positions of the characters beyond the basic multilingual plane, which take two units of UTF-16. */
  function AstralAt(text: string): (s: set<nat>) {
    set i: nat | i < |text| && text[i] as int > 0xFFFF
  }

  lemma {:induction false} GsmUnitsAre(text: string)
    ensures GsmUnits(text) == |text| + |ExtendedAt(text)|
  {
    if text != "" {
      var n := |text| - 1;
      GsmUnitsAre(text[..n]);
      if Extended(text[n]) {
        assert ExtendedAt(text) == ExtendedAt(text[..n]) + {n};
      } else {
        assert ExtendedAt(text) == ExtendedAt(text[..n]);
      }
    }
  }

  lemma {:induction false} Utf16UnitsAre(text: string)
    ensures Utf16Units(text) == |text| + |AstralAt(text)|
  {
    if text != "" {
      var n := |text| - 1;
      Utf16UnitsAre(text[..n]);
      if text[n] as int > 0xFFFF {
        assert AstralAt(text) == AstralAt(text[..n]) + {n};
      } else {
        assert AstralAt(text) == AstralAt(text[..n]);
      }
    }
  }

  /** The basic encoding is taken exactly if it has every character, and a character takes two units where it needs them. */
  lemma CharsAre(text: string, l: Limits)
    requires Usable(l)
    ensures CountParts(text, l).encoding == Gsm7 <==> forall c :: c in text ==> Basic(c) || Extended(c)
    ensures CountParts(text, l).chars
            == |text| + if CountParts(text, l).encoding == Gsm7 then |set i: nat | i < |text| && Extended(text[i])|
                        else |set i: nat | i < |text| && text[i] as int > 0xFFFF|
  {
    GsmUnitsAre(text);
    Utf16UnitsAre(text);
    assert AllGsm(text) <==> forall c :: c in text ==> Basic(c) || Extended(c);
    assert ExtendedAt(text) == set i: nat | i < |text| && Extended(text[i]);
    assert AstralAt(text) == set i: nat | i < |text| && text[i] as int > 0xFFFF;
  }

  /**
   * The parts are the fewest for the units: none for no text, one up to the size of a single message, and beyond that as many
   * long ones as they need. What remains is the room that is left in them.
   */
  lemma PartsAre(text: string, l: Limits)
    requires Usable(l)
    ensures var p := CountParts(text, l);
            var single, multi := if p.encoding == Gsm7 then l.single else l.unicodeSingle,
                                 if p.encoding == Gsm7 then l.multi else l.unicodeMulti;
            && (p.chars == 0 ==> p.parts == 0)
            && (0 < p.chars <= single ==> p.parts == 1)
            && (p.chars > single ==> p.parts * multi - multi < p.chars <= p.parts * multi)
            && p.remaining == (if p.chars <= single then single else p.parts * multi) - p.chars
  {
    var p := CountParts(text, l);
    var single, multi := if p.encoding == Gsm7 then l.single else l.unicodeSingle,
                         if p.encoding == Gsm7 then l.multi else l.unicodeMulti;
    if p.chars > single {
      FewestParts(p.chars, single, multi);
    }
  }

  lemma PartsForGrows(a: nat, b: nat, single: nat, multi: nat)
    requires multi > 0 && a <= b
    ensures PartsFor(a, single, multi) <= PartsFor(b, single, multi)
  {
    if b > single {
      CeilDivLeast(b, multi, CeilDiv(b, multi));
      CeilDivLeast(a, multi, CeilDiv(b, multi));
      CeilDivLeast(b, multi, 0);
    }
  }

  const DEFAULT_LIMITS := Limits(160, 153, 70, 67)

  lemma SwitchCosts(gsm: nat, ucs: nat, l: Limits)
    requires Usable(l) && 2 * l.unicodeSingle <= l.single && 2 * l.unicodeMulti <= l.multi
    requires gsm <= 2 * ucs && ucs > 0
    ensures PartsFor(gsm, l.single, l.multi) <= PartsFor(ucs, l.unicodeSingle, l.unicodeMulti)
  {
    if ucs > l.unicodeSingle {
      var p := CeilDiv(ucs, l.unicodeMulti);
      CeilDivLeast(ucs, l.unicodeMulti, p);
      CeilDivLeast(ucs, l.unicodeMulti, 0);
      Doubled(p, l.unicodeMulti, l.multi);
      CeilDivLeast(gsm, l.multi, p);
    }
  }

  lemma Doubled(p: nat, small: nat, large: nat)
    requires 2 * small <= large
    ensures 2 * (p * small) <= p * large
  {
    assert 2 * (p * small) == p * (2 * small);
  }

  /**
   * A longer message never takes fewer parts, even where its last character switches the encoding: under the default limits and
   * all others where two units of GSM-7 take no more room than one of UCS-2.
   */
  lemma AppendingNeverCheaper(text: string, c: char, l: Limits)
    requires l == Limits(160, 153, 70, 67) || (Usable(l) && 2 * l.unicodeSingle <= l.single && 2 * l.unicodeMulti <= l.multi)
    ensures CountParts(text, l).parts <= CountParts(text + [c], l).parts
  {
    var longer := text + [c];
    assert longer[..|text|] == text;
    if AllGsm(longer) {
      assert AllGsm(text) by {
        assert forall i :: 0 <= i < |text| ==> longer[i] == text[i];
      }
      PartsForGrows(GsmUnits(text), GsmUnits(longer), l.single, l.multi);
    } else if AllGsm(text) {
      SwitchCosts(GsmUnits(text), Utf16Units(longer), l);
    } else {
      PartsForGrows(Utf16Units(text), Utf16Units(longer), l.unicodeSingle, l.unicodeMulti);
    }
  }

  // ---------- the share of each provider ----------

  datatype Provider = EgoSms | MamboSms

  datatype Mode = Default | Only(provider: Provider) | Split

  function Floor100(i: nat, pct: nat): nat {
    i * pct / 100
  }

  function AssignProviders(n: nat, mode: Mode, pct: nat, default: Provider): (r: seq<Provider>)
    ensures |r| == n
    ensures !mode.Split? ==> forall p :: p in r ==> p == if mode.Only? then mode.provider else default
  {
    match mode
    case Only(p) => seq(n, _ => p)
    case Split => seq(n, i requires 0 <= i < n => if Floor100(i + 1, pct) > Floor100(i, pct) then EgoSms else MamboSms)
    case Default => seq(n, _ => default)
  }

  function CountOf(share: seq<Provider>, p: Provider): nat {
    if share == [] then 0 else CountOf(share[..|share| - 1], p) + if share[|share| - 1] == p then 1 else 0
  }

  lemma ShareSteps(i: nat, pct: nat)
    requires pct <= 100
    ensures Floor100(i, pct) <= Floor100(i + 1, pct) <= Floor100(i, pct) + 1
  {
    assert (i + 1) * pct == i * pct + pct;
  }

  /** At every point of a split send, the share of the first provider so far is exact, rounded down. */
  lemma {:induction false} SplitExact(n: nat, pct: nat, default: Provider, m: nat)
    requires pct <= 100 && m <= n
    ensures CountOf(AssignProviders(n, Split, pct, default)[..m], EgoSms) == m * pct / 100
  {
    var share := AssignProviders(n, Split, pct, default);
    if m > 0 {
      SplitExact(n, pct, default, m - 1);
      ShareSteps(m - 1, pct);
      assert share[..m][..m - 1] == share[..m - 1];
    }
  }

  // ---------- estimates ----------

  /** Counting the parts of a message with the limits of one provider. */
  type Counter = string -> Parts

  type UsableLimits = l: Limits | Usable(l) witness DEFAULT_LIMITS

  function CountWith(l: UsableLimits): Counter {
    text => CountParts(text, l)
  }

  /** A voter with the message as it would be sent. */
  datatype Voter = Voter(hasPhone: bool, text: string)

  datatype Length = NoLength | Length(n: nat)

  datatype Estimate = Estimate(recipients: nat, noPhone: nat, totalParts: nat, byParts: map<nat, nat>, minLen: Length,
                               maxLen: Length)

  function Reachable(voters: seq<Voter>): (r: seq<Voter>)
    ensures |r| <= |voters| && forall v :: v in r ==> v.hasPhone
  {
    if voters == [] then []
    else Reachable(voters[..|voters| - 1]) + if voters[|voters| - 1].hasPhone then [voters[|voters| - 1]] else []
  }

  function TotalParts(vs: seq<Voter>, count: Counter): nat
  {
    if vs == [] then 0 else TotalParts(vs[..|vs| - 1], count) + count(vs[|vs| - 1].text).parts
  }

  /** How many of the voters get a message of `k` parts. */
  function WithParts(vs: seq<Voter>, count: Counter, k: nat): nat
  {
    if vs == [] then 0
    else WithParts(vs[..|vs| - 1], count, k) + if count(vs[|vs| - 1].text).parts == k then 1 else 0
  }

  lemma OneMoreVoter(vs: seq<Voter>, v: Voter, count: Counter)
    ensures TotalParts(vs + [v], count) == TotalParts(vs, count) + count(v.text).parts
    ensures forall k :: WithParts(vs + [v], count, k) == WithParts(vs, count, k) + if count(v.text).parts == k then 1 else 0
  {
    assert (vs + [v])[..|vs|] == vs;
  }

  function At(m: map<nat, nat>, k: nat): nat {
    if k in m then m[k] else 0
  }

  ghost predicate IsEstimate(e: Estimate, voters: seq<Voter>, count: Counter) {
    e.noPhone == |voters| - |Reachable(voters)| && Summarizes(e, Reachable(voters), count)
  }

  ghost predicate Summarizes(e: Estimate, vs: seq<Voter>, count: Counter) {
    && e.recipients == |vs|
    && e.totalParts == TotalParts(vs, count)
    && (forall k :: At(e.byParts, k) == WithParts(vs, count, k))
    && Spans(e.minLen, e.maxLen, CharsOf(vs, count))
  }

  /** Every voter with a phone is a recipient as often as it was given, and nobody else is. */
  lemma {:induction false} RecipientsAre(voters: seq<Voter>, v: Voter)
    ensures multiset(Reachable(voters))[v] == if v.hasPhone then multiset(voters)[v] else 0
  {
    if voters != [] {
      var n := |voters| - 1;
      RecipientsAre(voters[..n], v);
      assert voters == voters[..n] + [voters[n]];
    }
  }

  /** What an estimate says, in its own fields. */
  lemma EstimateIff(e: Estimate, voters: seq<Voter>, count: Counter)
    ensures IsEstimate(e, voters, count)
            <==> && e.recipients == |Reachable(voters)| && e.recipients + e.noPhone == |voters|
                 && e.totalParts == TotalParts(Reachable(voters), count)
                 && (forall k :: (if k in e.byParts then e.byParts[k] else 0) == WithParts(Reachable(voters), count, k))
                 && Spans(e.minLen, e.maxLen, set v | v in Reachable(voters) :: count(v.text).chars)
  {
    assert forall k :: At(e.byParts, k) == if k in e.byParts then e.byParts[k] else 0;
    assert CharsOf(Reachable(voters), count) == set v | v in Reachable(voters) :: count(v.text).chars;
  }

  lemma SpansIff(lo: Length, hi: Length, ns: set<nat>)
    ensures Spans(lo, hi, ns)
            <==> if ns == {} then lo == NoLength && hi == NoLength
                 else exists a, b :: && a in ns && b in ns && lo == Length(a) && hi == Length(b)
                                     && forall n :: n in ns ==> a <= n <= b
  {
    if Spans(lo, hi, ns) && ns != {} {
      assert lo == Length(lo.n) && hi == Length(hi.n);
    }
  }

  function CharsOf(vs: seq<Voter>, count: Counter): set<nat> {
    set v | v in vs :: count(v.text).chars
  }

  /** `lo` and `hi` are the least and the greatest of `ns`, if there are any. */
  predicate Spans(lo: Length, hi: Length, ns: set<nat>) {
    && (ns == {} <==> lo.NoLength?) && (ns == {} <==> hi.NoLength?)
    && (ns != {} ==> lo.n in ns && hi.n in ns && forall n :: n in ns ==> lo.n <= n <= hi.n)
  }

  function Lower(a: Length, b: Length): Length {
    if a.NoLength? || (b.Length? && b.n < a.n) then b else a
  }

  function Upper(a: Length, b: Length): Length {
    if a.NoLength? || (b.Length? && b.n > a.n) then b else a
  }

  lemma SpansUnion(lo: Length, hi: Length, ns: set<nat>, lo': Length, hi': Length, ns': set<nat>)
    requires Spans(lo, hi, ns) && Spans(lo', hi', ns')
    ensures Spans(Lower(lo, lo'), Upper(hi, hi'), ns + ns')
  {
    if ns == {} {
      assert ns + ns' == ns';
    }
  }

  method CountVoter(e: Estimate, v: Voter, count: Counter, ghost vs: seq<Voter>) returns (e': Estimate)
    requires Summarizes(e, vs, count)
    ensures Summarizes(e', vs + [v], count) && e'.noPhone == e.noPhone
  {
    OneMoreVoter(vs, v, count);
    var c := count(v.text);
    assert CharsOf(vs + [v], count) == CharsOf(vs, count) + {c.chars};
    SpansUnion(e.minLen, e.maxLen, CharsOf(vs, count), Length(c.chars), Length(c.chars), {c.chars});
    e' := Estimate(e.recipients + 1, e.noPhone, e.totalParts + c.parts, e.byParts[c.parts := At(e.byParts, c.parts) + 1],
                   Lower(e.minLen, Length(c.chars)), Upper(e.maxLen, Length(c.chars)));
  }

  lemma ReachableOneMore(voters: seq<Voter>, v: Voter)
    ensures Reachable(voters + [v]) == if v.hasPhone then Reachable(voters) + [v] else Reachable(voters)
  {
    assert (voters + [v])[..|voters|] == voters;
    assert Reachable(voters) + [] == Reachable(voters);
  }

  /** One more voter, with or without a phone. */
  method EstimateNext(e: Estimate, v: Voter, count: Counter, ghost before: seq<Voter>) returns (e': Estimate)
    requires IsEstimate(e, before, count)
    ensures IsEstimate(e', before + [v], count)
  {
    ReachableOneMore(before, v);
    if v.hasPhone {
      e' := CountVoter(e, v, count, Reachable(before));
    } else {
      e' := e.(noPhone := e.noPhone + 1);
    }
  }

  lemma EstimateNone(count: Counter)
    ensures IsEstimate(Estimate(0, 0, 0, map[], NoLength, NoLength), [], count)
  {
    assert CharsOf([], count) == {};
  }

  method EstimateVoters(voters: seq<Voter>, count: Counter) returns (e: Estimate)
    ensures IsEstimate(e, voters, count)
  {
    e := Estimate(0, 0, 0, map[], NoLength, NoLength);
    EstimateNone(count);
    ghost var before: seq<Voter> := [];
    for i := 0 to |voters|
      invariant before == voters[..i]
      invariant IsEstimate(e, before, count)
    {
      e := EstimateNext(e, voters[i], count, before);
      before := before + [voters[i]];
    }
    assert before == voters;
  }

  // ---------- the estimate of a split send ----------

  /** The voters of one provider, in order. */
  function Group(vs: seq<Voter>, share: seq<Provider>, p: Provider): (r: seq<Voter>)
    requires |vs| == |share|
    ensures forall v :: v in r ==> v in vs
  {
    if vs == [] then []
    else
      var n := |vs| - 1;
      Group(vs[..n], share[..n], p) + if share[n] == p then [vs[n]] else []
  }

  /** Every recipient's parts, counted with the limits of the provider that carries the message. */
  function AssignedParts(vs: seq<Voter>, share: seq<Provider>, counts: Provider -> Counter): nat
    requires |vs| == |share|
  {
    if vs == [] then 0
    else
      var n := |vs| - 1;
      AssignedParts(vs[..n], share[..n], counts) + counts(share[n])(vs[n].text).parts
  }

  function AssignedWithParts(vs: seq<Voter>, share: seq<Provider>, counts: Provider -> Counter, k: nat): nat
    requires |vs| == |share|
  {
    if vs == [] then 0
    else
      var n := |vs| - 1;
      AssignedWithParts(vs[..n], share[..n], counts, k)
      + if counts(share[n])(vs[n].text).parts == k then 1 else 0
  }

  function AssignedChars(vs: seq<Voter>, share: seq<Provider>, counts: Provider -> Counter): set<nat>
    requires |vs| == |share|
  {
    set i | 0 <= i < |vs| :: counts(share[i])(vs[i].text).chars
  }

  lemma {:induction false} GroupMembers(vs: seq<Voter>, share: seq<Provider>, p: Provider)
    requires |vs| == |share|
    ensures forall i :: 0 <= i < |vs| && share[i] == p ==> vs[i] in Group(vs, share, p)
    ensures forall v :: v in Group(vs, share, p) ==> exists i :: 0 <= i < |vs| && share[i] == p && vs[i] == v
  {
    if vs != [] {
      var n := |vs| - 1;
      GroupMembers(vs[..n], share[..n], p);
      assert forall i :: 0 <= i < n ==> vs[..n][i] == vs[i] && share[..n][i] == share[i];
    }
  }

  lemma GroupsCharsUnion(vs: seq<Voter>, share: seq<Provider>, counts: Provider -> Counter)
    requires |vs| == |share|
    ensures AssignedChars(vs, share, counts)
            == CharsOf(Group(vs, share, EgoSms), counts(EgoSms)) + CharsOf(Group(vs, share, MamboSms), counts(MamboSms))
  {
    GroupMembers(vs, share, EgoSms);
    GroupMembers(vs, share, MamboSms);
    var ego, mambo := Group(vs, share, EgoSms), Group(vs, share, MamboSms);
    forall n | n in AssignedChars(vs, share, counts)
      ensures n in CharsOf(ego, counts(EgoSms)) + CharsOf(mambo, counts(MamboSms))
    {
      var i :| 0 <= i < |vs| && n == counts(share[i])(vs[i].text).chars;
      assert share[i] == EgoSms || share[i] == MamboSms;
    }
    forall v | v in ego
      ensures counts(EgoSms)(v.text).chars in AssignedChars(vs, share, counts)
    {
      var i :| 0 <= i < |vs| && share[i] == EgoSms && vs[i] == v;
    }
    forall v | v in mambo
      ensures counts(MamboSms)(v.text).chars in AssignedChars(vs, share, counts)
    {
      var i :| 0 <= i < |vs| && share[i] == MamboSms && vs[i] == v;
    }
  }

  lemma GroupOneMore(vs: seq<Voter>, share: seq<Provider>, p: Provider)
    requires |vs| == |share| && vs != []
    ensures var n := |vs| - 1;
            Group(vs, share, p)
            == if share[n] == p then Group(vs[..n], share[..n], p) + [vs[n]] else Group(vs[..n], share[..n], p)
  {
    var n := |vs| - 1;
    assert Group(vs[..n], share[..n], p) + [] == Group(vs[..n], share[..n], p);
  }

  lemma {:induction false} GroupsAddUp(vs: seq<Voter>, share: seq<Provider>, counts: Provider -> Counter)
    requires |vs| == |share|
    ensures var ego, mambo := Group(vs, share, EgoSms), Group(vs, share, MamboSms);
            && |ego| + |mambo| == |vs|
            && TotalParts(ego, counts(EgoSms)) + TotalParts(mambo, counts(MamboSms)) == AssignedParts(vs, share, counts)
  {
    if vs != [] {
      var n := |vs| - 1;
      GroupsAddUp(vs[..n], share[..n], counts);
      GroupOneMore(vs, share, EgoSms);
      GroupOneMore(vs, share, MamboSms);
      OneMoreVoter(Group(vs[..n], share[..n], share[n]), vs[n], counts(share[n]));
    }
  }

  lemma {:induction false} GroupsCountUp(vs: seq<Voter>, share: seq<Provider>, counts: Provider -> Counter, k: nat)
    requires |vs| == |share|
    ensures WithParts(Group(vs, share, EgoSms), counts(EgoSms), k) + WithParts(Group(vs, share, MamboSms), counts(MamboSms), k)
            == AssignedWithParts(vs, share, counts, k)
  {
    if vs != [] {
      var n := |vs| - 1;
      GroupsCountUp(vs[..n], share[..n], counts, k);
      GroupOneMore(vs, share, EgoSms);
      GroupOneMore(vs, share, MamboSms);
      OneMoreVoter(Group(vs[..n], share[..n], share[n]), vs[n], counts(share[n]));
    }
  }

  lemma SplitTotals(vs: seq<Voter>, share: seq<Provider>, counts: Provider -> Counter)
    requires |vs| == |share|
    ensures var ego, mambo := Group(vs, share, EgoSms), Group(vs, share, MamboSms);
            && TotalParts(ego, counts(EgoSms)) + TotalParts(mambo, counts(MamboSms)) == AssignedParts(vs, share, counts)
            && forall k :: AssignedWithParts(vs, share, counts, k)
                           == WithParts(ego, counts(EgoSms), k) + WithParts(mambo, counts(MamboSms), k)
  {
    GroupsAddUp(vs, share, counts);
    forall k
      ensures AssignedWithParts(vs, share, counts, k)
              == WithParts(Group(vs, share, EgoSms), counts(EgoSms), k)
                 + WithParts(Group(vs, share, MamboSms), counts(MamboSms), k)
    {
      GroupsCountUp(vs, share, counts, k);
    }
  }

  lemma {:induction false} AllReachable(vs: seq<Voter>)
    requires forall v :: v in vs ==> v.hasPhone
    ensures Reachable(vs) == vs
  {
    if vs != [] {
      assert vs[|vs| - 1] in vs;
      AllReachable(vs[..|vs| - 1]);
      assert vs == vs[..|vs| - 1] + [vs[|vs| - 1]];
    }
  }

  datatype SplitEstimate = SplitEstimate(recipients: nat, noPhone: nat, totalParts: nat, byParts: map<nat, nat>,
                                         minLen: Length, maxLen: Length, byProvider: map<Provider, Estimate>,
                                         assignments: seq<Provider>)

  method ReachableVoters(voters: seq<Voter>) returns (r: seq<Voter>)
    ensures r == Reachable(voters)
  {
    r := [];
    for i := 0 to |voters|
      invariant r == Reachable(voters[..i])
    {
      assert voters[..i + 1][..i] == voters[..i];
      if voters[i].hasPhone {
        r := r + [voters[i]];
      }
    }
    assert voters[..|voters|] == voters;
  }

  method GroupOf(vs: seq<Voter>, share: seq<Provider>, p: Provider) returns (r: seq<Voter>)
    requires |vs| == |share|
    ensures r == Group(vs, share, p)
  {
    r := [];
    for i := 0 to |vs|
      invariant r == Group(vs[..i], share[..i], p)
    {
      assert vs[..i + 1][..i] == vs[..i] && share[..i + 1][..i] == share[..i];
      if share[i] == p {
        r := r + [vs[i]];
      }
    }
    assert vs[..|vs|] == vs && share[..|share|] == share;
  }

  method AddHistogram(a: map<nat, nat>, b: map<nat, nat>) returns (r: map<nat, nat>)
    ensures forall k :: At(r, k) == At(a, k) + At(b, k)
  {
    r := a;
    var todo := b.Keys;
    while todo != {}
      invariant todo <= b.Keys
      invariant forall k :: At(r, k) == At(a, k) + if k in todo then 0 else At(b, k)
      decreases todo
    {
      var k :| k in todo;
      r := r[k := At(r, k) + b[k]];
      todo := todo - {k};
    }
  }

  datatype Totals = Totals(parts: nat, byParts: map<nat, nat>, lo: Length, hi: Length)

  /** A provider is listed exactly if it has recipients, with their estimate. */
  ghost predicate Listed(byProvider: map<Provider, Estimate>, p: Provider, group: seq<Voter>, count: Counter) {
    (p in byProvider <==> group != []) && (p in byProvider ==> IsEstimate(byProvider[p], group, count))
  }

  ghost predicate Added(t: Totals, t': Totals, group: seq<Voter>, count: Counter) {
    t'.parts == t.parts + TotalParts(group, count)
    && forall k :: At(t'.byParts, k) == At(t.byParts, k) + WithParts(group, count, k)
  }

  /** Every recipient counted with the limits of the provider that carries the message. */
  ghost predicate TotalsOf(t: Totals, vs: seq<Voter>, share: seq<Provider>, counts: Provider -> Counter)
    requires |vs| == |share|
  {
    && t.parts == AssignedParts(vs, share, counts)
    && (forall k :: At(t.byParts, k) == AssignedWithParts(vs, share, counts, k))
    && Spans(t.lo, t.hi, AssignedChars(vs, share, counts))
  }

  /** The totals and the list of providers of a split send, in their own fields. */
  lemma SplitIff(e: SplitEstimate, vs: seq<Voter>, p: Provider, counts: Provider -> Counter)
    requires |vs| == |e.assignments|
    ensures TotalsOf(Totals(e.totalParts, e.byParts, e.minLen, e.maxLen), vs, e.assignments, counts)
            <==> && e.totalParts == AssignedParts(vs, e.assignments, counts)
                 && (forall k :: (if k in e.byParts then e.byParts[k] else 0) == AssignedWithParts(vs, e.assignments, counts, k))
                 && Spans(e.minLen, e.maxLen, set i | 0 <= i < |vs| :: counts(e.assignments[i])(vs[i].text).chars)
    ensures Listed(e.byProvider, p, Group(vs, e.assignments, p), counts(p))
            <==> if p !in e.assignments then p !in e.byProvider
                 else p in e.byProvider && IsEstimate(e.byProvider[p], Group(vs, e.assignments, p), counts(p))
  {
    assert forall k :: At(e.byParts, k) == if k in e.byParts then e.byParts[k] else 0;
    assert AssignedChars(vs, e.assignments, counts)
        == set i | 0 <= i < |vs| :: counts(e.assignments[i])(vs[i].text).chars;
    GroupMembers(vs, e.assignments, p);
    assert forall i :: 0 <= i < |vs| && e.assignments[i] == p ==> vs[i] in Group(vs, e.assignments, p);
    assert Group(vs, e.assignments, p) != [] ==> Group(vs, e.assignments, p)[0] in Group(vs, e.assignments, p);
  }

  /** The estimate of one provider's group, added to the totals. */
  method AddEstimate(group: seq<Voter>, count: Counter, t: Totals, ghost chars: set<nat>) returns (one: Estimate, t': Totals)
    requires (forall v :: v in group ==> v.hasPhone) && Spans(t.lo, t.hi, chars)
    ensures IsEstimate(one, group, count) && Added(t, t', group, count)
    ensures Spans(t'.lo, t'.hi, chars + CharsOf(group, count))
  {
    AllReachable(group);
    one := EstimateVoters(group, count);
    var byParts := AddHistogram(t.byParts, one.byParts);
    SpansUnion(t.lo, t.hi, chars, one.minLen, one.maxLen, CharsOf(group, count));
    t' := Totals(t.parts + one.totalParts, byParts, Lower(t.lo, one.minLen), Upper(t.hi, one.maxLen));
  }

  lemma NothingAdded(t: Totals, count: Counter, chars: set<nat>)
    ensures Added(t, t, [], count) && chars + CharsOf([], count) == chars
  {
  }

  method AddProvider(group: seq<Voter>, p: Provider, count: Counter, byProvider: map<Provider, Estimate>, t: Totals,
                     ghost chars: set<nat>)
    returns (byProvider': map<Provider, Estimate>, t': Totals)
    requires p !in byProvider && (forall v :: v in group ==> v.hasPhone) && Spans(t.lo, t.hi, chars)
    ensures Listed(byProvider', p, group, count) && byProvider' - {p} == byProvider
    ensures Added(t, t', group, count) && Spans(t'.lo, t'.hi, chars + CharsOf(group, count))
  {
    byProvider', t' := byProvider, t;
    if group == [] {
      NothingAdded(t, count, chars);
    } else {
      var one;
      one, t' := AddEstimate(group, count, t, chars);
      byProvider' := byProvider[p := one];
    }
  }

  lemma GroupsTotal(vs: seq<Voter>, share: seq<Provider>, counts: Provider -> Counter, t1: Totals, t2: Totals)
    requires |vs| == |share|
    requires Added(Totals(0, map[], NoLength, NoLength), t1, Group(vs, share, EgoSms), counts(EgoSms))
    requires Added(t1, t2, Group(vs, share, MamboSms), counts(MamboSms))
    requires Spans(t2.lo, t2.hi, CharsOf(Group(vs, share, EgoSms), counts(EgoSms))
                                 + CharsOf(Group(vs, share, MamboSms), counts(MamboSms)))
    ensures TotalsOf(t2, vs, share, counts)
  {
    SplitTotals(vs, share, counts);
    GroupsCharsUnion(vs, share, counts);
  }

  method EstimateGroups(vs: seq<Voter>, share: seq<Provider>, counts: Provider -> Counter)
    returns (byProvider: map<Provider, Estimate>, t: Totals)
    requires |vs| == |share| && forall v :: v in vs ==> v.hasPhone
    ensures TotalsOf(t, vs, share, counts)
    ensures Listed(byProvider, EgoSms, Group(vs, share, EgoSms), counts(EgoSms))
    ensures Listed(byProvider, MamboSms, Group(vs, share, MamboSms), counts(MamboSms))
  {
    var ego := GroupOf(vs, share, EgoSms);
    var none := Totals(0, map[], NoLength, NoLength);
    ghost var chars := {} + CharsOf(ego, counts(EgoSms));
    assert chars == CharsOf(ego, counts(EgoSms));
    var first, t1 := AddProvider(ego, EgoSms, counts(EgoSms), map[], none, {});
    NotListed(first, MamboSms);
    var mambo := GroupOf(vs, share, MamboSms);
    byProvider, t := AddProvider(mambo, MamboSms, counts(MamboSms), first, t1, chars);
    StillListed(first, byProvider, ego, counts(EgoSms));
    GroupsTotal(vs, share, counts, t1, t);
  }

  lemma NotListed(byProvider: map<Provider, Estimate>, p: Provider)
    requires byProvider - {EgoSms} == map[] && p != EgoSms
    ensures p !in byProvider
  {
    assert p in byProvider ==> p in byProvider - {EgoSms};
  }

  lemma StillListed(first: map<Provider, Estimate>, byProvider: map<Provider, Estimate>, ego: seq<Voter>, count: Counter)
    requires Listed(first, EgoSms, ego, count) && byProvider - {MamboSms} == first
    ensures Listed(byProvider, EgoSms, ego, count)
  {
    assert EgoSms in byProvider <==> EgoSms in byProvider - {MamboSms};
  }

  /** Every voter is accounted for once, and every recipient's parts are counted with the limits of its own provider. */
  method EstimateSplit(voters: seq<Voter>, counts: Provider -> Counter, mode: Mode, pct: nat, default: Provider)
    returns (e: SplitEstimate)
    ensures e.recipients == |Reachable(voters)| && e.recipients + e.noPhone == |voters|
    ensures e.assignments == AssignProviders(|Reachable(voters)|, mode, pct, default)
    ensures TotalsOf(Totals(e.totalParts, e.byParts, e.minLen, e.maxLen), Reachable(voters), e.assignments, counts)
    ensures forall p :: Listed(e.byProvider, p, Group(Reachable(voters), e.assignments, p), counts(p))
  {
    var vs := ReachableVoters(voters);
    var share := AssignProviders(|vs|, mode, pct, default);
    var byProvider, t := EstimateGroups(vs, share, counts);
    e := SplitEstimate(|vs|, |voters| - |vs|, t.parts, t.byParts, t.lo, t.hi, byProvider, share);
    forall p
      ensures Listed(byProvider, p, Group(vs, share, p), counts(p))
    {
      assert p == EgoSms || p == MamboSms;
    }
  }

  /** With the limits of two providers, every recipient of a split send is counted as `CountParts` says for its provider. */
  method EstimateSend(voters: seq<Voter>, ego: UsableLimits, mambo: UsableLimits, pct: nat) returns (e: SplitEstimate)
    requires pct <= 100
    ensures e.recipients == |Reachable(voters)| && e.recipients + e.noPhone == |voters|
    ensures |e.assignments| == e.recipients
    ensures TotalsOf(Totals(e.totalParts, e.byParts, e.minLen, e.maxLen), Reachable(voters), e.assignments,
                     p => CountWith(if p == EgoSms then ego else mambo))
    ensures forall m :: 0 <= m <= e.recipients ==> CountOf(e.assignments[..m], EgoSms) == m * pct / 100
  {
    e := EstimateSplit(voters, p => CountWith(if p == EgoSms then ego else mambo), Split, pct, MamboSms);
    forall m | 0 <= m <= e.recipients
      ensures CountOf(e.assignments[..m], EgoSms) == m * pct / 100
    {
      SplitExact(e.recipients, pct, MamboSms, m);
    }
  }
}
