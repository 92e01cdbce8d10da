/**
 * The set/map pass of get_loyal_customers_using_set.cpp (`find_loyal_customers`): each log line
 * `timestamp,page,customer` of day `day` either is skipped (a loyal customer), records the first
 * sighting of a customer, or compares the line with what is recorded of the customer on another day.
 * The global set `loyal_customers` and the map `pages_visited_by_customer` are passed in and out.
 */
module LoyalBySet {
  import opened StringHelper
  import opened CsvHelper
  import opened RowOrder

  /** `pages_visited_by_customer`: customer id to day to the page ids recorded that day. */
  type Visits = map<string, map<int, set<string>>>

  /** Field `k` of a log line (the source indexes `split(line, ",")` directly). */
  function Field(line: string, k: nat): string {
    var data := SplitTokens(line, ",");
    if k < |data| then data[k] else ""
  }

  /** A log line has at least the three fields timestamp, page id and customer id. */
  predicate LogLine(line: string) {
    |SplitTokens(line, ",")| >= 3
  }

  /** `*s.begin()` of a `set<string>` equals `p`: `p` is the least page of `s`. */
  predicate IsLeast(p: string, s: set<string>) {
    p in s && forall q :: q in s ==> !StrLess(q, p)
  }

  /** Every recorded day holds at least one page, so `*begin()` of its set is defined. */
  ghost predicate PagesNonEmpty(visits: Visits) {
    forall c, d :: c in visits && d in visits[c] ==> visits[c][d] != {}
  }

  /**
   * What one line does to the state. A recorded customer becomes loyal when some recorded day
   * other than `day` has two or more days beside it in the map, or has a least page
   * other than `page`; it is then erased from the map.
   */
  function Step(loyal: set<string>, visits: Visits, page: string, customer: string, day: int): (r: (set<string>, Visits))
    requires PagesNonEmpty(visits)
    ensures PagesNonEmpty(r.1)
  {
    if customer in loyal then (loyal, visits)
    else if customer in visits then
      var byDay := visits[customer];
      if exists d :: d in byDay && d != day && (|byDay| >= 2 || !IsLeast(page, byDay[d])) then
        (loyal + {customer}, visits - {customer})
      else
        (loyal, visits)
    else
      (loyal, visits[customer := map[day := {page}]])
  }

  /** The body of the `getline` loop for one line. */
  method ProcessLine(loyal: set<string>, visits: Visits, line: string, day: int) returns (loyal': set<string>, visits': Visits)
    requires LogLine(line) && PagesNonEmpty(visits)
    ensures (loyal', visits') == Step(loyal, visits, Field(line, 1), Field(line, 2), day)
  {
    var data := Split(line, ",");
    var page := data[1];
    var customer := data[2];
    loyal', visits' := loyal, visits;
    if customer in loyal {
      return;
    }
    if customer in visits {
      var found := ScanDays(visits[customer], page, day);
      if found {
        loyal' := loyal + {customer};
        visits' := visits - {customer};
      }
    } else {
      visits' := visits[customer := map[day := {page}]];
    }
  }

  /**
   * The loop over the days recorded for a known customer: it stops at the first day other than
   * `day` whose map has two or more days or whose least page is not `page`. The days are visited
   * in increasing order in the source; whether such a day exists does not depend on that order,
   * so the model takes them in any order.
   */
  method ScanDays(byDay: map<int, set<string>>, page: string, day: int) returns (found: bool)
    ensures found <==> exists d :: d in byDay && d != day && (|byDay| >= 2 || !IsLeast(page, byDay[d]))
  {
    var days := byDay.Keys;
    found := false;
    while days != {} && !found
      invariant days <= byDay.Keys
      invariant !found ==> forall d :: d in byDay.Keys - days ==> !(d != day && (|byDay| >= 2 || !IsLeast(page, byDay[d])))
      invariant found ==> exists d :: d in byDay && d != day && (|byDay| >= 2 || !IsLeast(page, byDay[d]))
      decreases |days|
    {
      ghost var someDay := Pick(days);
      var d :| d in days;
      days := days - {d};
      if d == day {
        // the page is added to a copy of the day's set, which is then discarded
        var pageIds := byDay[d] + {page};
      } else if |byDay| >= 2 || !IsLeast(page, byDay[d]) {
        found := true;
      }
    }
  }

  /** An element of a non-empty set. */
  lemma Pick<T>(s: set<T>) returns (x: T)
    requires s != {}
    ensures x in s
  {
    x :| x in s;
  }

  /** The state after the lines `lines` of day `day`, one `Step` per line. */
  function Run(loyal: set<string>, visits: Visits, lines: seq<string>, day: int): (r: (set<string>, Visits))
    requires PagesNonEmpty(visits)
    ensures PagesNonEmpty(r.1)
    decreases |lines|
  {
    if |lines| == 0 then (loyal, visits)
    else
      var s := Step(loyal, visits, Field(lines[0], 1), Field(lines[0], 2), day);
      Run(s.0, s.1, lines[1..], day)
  }

  /** `find_loyal_customers(pages_visited_by_customer, file, day)` over the lines `getline` reads from `text`. */
  method FindLoyalCustomers(loyal: set<string>, visits: Visits, text: string, day: int) returns (loyal': set<string>, visits': Visits)
    requires forall i :: 0 <= i < |GetlineLines(text)| ==> LogLine(GetlineLines(text)[i])
    requires PagesNonEmpty(visits)
    ensures PagesNonEmpty(visits')
    ensures (loyal', visits') == Run(loyal, visits, GetlineLines(text), day)
  {
    var lines := GetlineLines(text);
    loyal', visits' := loyal, visits;
    var i := 0;
    while i < |lines|
      invariant 0 <= i <= |lines| && PagesNonEmpty(visits')
      invariant Run(loyal', visits', lines[i..], day) == Run(loyal, visits, lines, day)
    {
      assert lines[i..][1..] == lines[i + 1..];
      loyal', visits' := ProcessLine(loyal', visits', lines[i], day);
      i := i + 1;
    }
  }

  /** One visit a log line records: customer, day and page. */
  datatype Visit = Visit(customer: string, day: int, page: string)

  /** The visits the lines of day `day` record. */
  function VisitsOn(lines: seq<string>, day: int): set<Visit>
    decreases |lines|
  {
    if |lines| == 0 then {} else {Visit(Field(lines[0], 2), day, Field(lines[0], 1))} + VisitsOn(lines[1..], day)
  }

  /** Every map entry is a single day holding a single page. */
  ghost predicate SingleVisits(visits: Visits) {
    forall c :: c in visits ==> |visits[c]| == 1 && forall d :: d in visits[c] ==> |visits[c][d]| == 1
  }

  /** The customer came on two different days and saw two different pages on them. */
  ghost predicate TwoDaysTwoPages(c: string, seen: set<Visit>) {
    exists v, w :: v in seen && w in seen && v.customer == c && w.customer == c && v.day != w.day && v.page != w.page
  }

  /** The doc comment's criterion: visits on two different days, and two different pages visited. */
  ghost predicate LoyalByDefinition(c: string, seen: set<Visit>) {
    && (exists v, w :: v in seen && w in seen && v.customer == c && w.customer == c && v.day != w.day)
    && (exists v, w :: v in seen && w in seen && v.customer == c && w.customer == c && v.page != w.page)
  }

  /**
   * What the state keeps, given the visits `seen` so far: the loyal customers and the mapped ones
   * are disjoint, every entry is a single day with a single page that was seen, and every loyal
   * customer was seen on two days with two pages.
   */
  ghost predicate Consistent(loyal: set<string>, visits: Visits, seen: set<Visit>) {
    && (forall c :: c in loyal ==> c !in visits)
    && SingleVisits(visits)
    && PagesNonEmpty(visits)
    && (forall c, d, p :: c in visits && d in visits[c] && p in visits[c][d] ==> Visit(c, d, p) in seen)
    && (forall c :: c in loyal ==> TwoDaysTwoPages(c, seen))
  }

  /** The only member of a singleton set. */
  lemma SingletonMember<T>(s: set<T>) returns (x: T)
    requires |s| == 1
    ensures s == {x}
  {
    x :| x in s;
    assert |s - {x}| == 0;
  }

  /**
   * A line changes no entry of the map: it adds a first sighting, erases the customer that
   * becomes loyal, or leaves the map as it was. Loyal customers are never removed.
   */
  lemma StepFrame(loyal: set<string>, visits: Visits, page: string, customer: string, day: int)
    requires PagesNonEmpty(visits)
    ensures var r := Step(loyal, visits, page, customer, day);
      && loyal <= r.0 <= loyal + {customer}
      && (forall c :: c in r.1 && c != customer ==> c in visits && r.1[c] == visits[c])
      && (forall c :: c in visits && c != customer ==> c in r.1)
      && (customer in loyal ==> r == (loyal, visits))
      && (customer !in loyal && customer !in visits ==> r.0 == loyal && r.1[customer] == map[day := {page}])
  {
  }

  /**
   * For a customer recorded as `{d0 -> {p0}}`, a line of day `day` for page `page` makes the customer
   * loyal exactly when `d0 != day` and `p0 != page`, and then erases the entry; otherwise nothing changes.
   */
  lemma StepDecides(loyal: set<string>, visits: Visits, page: string, customer: string, day: int, d0: int, p0: string)
    requires PagesNonEmpty(visits) && customer !in loyal
    requires customer in visits && visits[customer] == map[d0 := {p0}]
    ensures var r := Step(loyal, visits, page, customer, day);
      r == if d0 != day && p0 != page then (loyal + {customer}, visits - {customer}) else (loyal, visits)
  {
    var byDay := visits[customer];
    assert byDay.Keys == {d0};
    assert |byDay| == 1;
    assert IsLeast(page, {p0}) <==> page == p0 by {
      if page == p0 {
        StrLessIrreflexive(p0);
      }
    }
    if d0 != day && p0 != page {
      assert d0 in byDay && d0 != day && !IsLeast(page, byDay[d0]);
    }
  }

  /** A line keeps the state consistent with the visits seen, this line's visit included. */
  lemma StepConsistent(loyal: set<string>, visits: Visits, seen: set<Visit>, page: string, customer: string, day: int)
    requires Consistent(loyal, visits, seen)
    ensures var r := Step(loyal, visits, page, customer, day);
      Consistent(r.0, r.1, seen + {Visit(customer, day, page)})
  {
    var seen' := seen + {Visit(customer, day, page)};
    var r := Step(loyal, visits, page, customer, day);
    StepFrame(loyal, visits, page, customer, day);
    StepMapKept(loyal, visits, seen, page, customer, day);
    StepLoyalSound(loyal, visits, seen, page, customer, day);
  }

  /** The map stays disjoint from the loyal set, single-valued, and made of seen visits. */
  lemma StepMapKept(loyal: set<string>, visits: Visits, seen: set<Visit>, page: string, customer: string, day: int)
    requires PagesNonEmpty(visits) && SingleVisits(visits) && (forall c :: c in loyal ==> c !in visits)
    requires forall c, d, p :: c in visits && d in visits[c] && p in visits[c][d] ==> Visit(c, d, p) in seen
    ensures var r := Step(loyal, visits, page, customer, day);
      && (forall c :: c in r.0 ==> c !in r.1)
      && SingleVisits(r.1)
      && (forall c, d, p :: c in r.1 && d in r.1[c] && p in r.1[c][d] ==> Visit(c, d, p) in seen + {Visit(customer, day, page)})
  {
    StepFrame(loyal, visits, page, customer, day);
    var r := Step(loyal, visits, page, customer, day);
    if customer !in loyal && customer !in visits {
      assert r.1[customer] == map[day := {page}];
      assert |map[day := {page}]| == 1;
    }
  }

  /** A customer who turns loyal on this line was seen on two days with two pages. */
  lemma StepLoyalSound(loyal: set<string>, visits: Visits, seen: set<Visit>, page: string, customer: string, day: int)
    requires Consistent(loyal, visits, seen)
    ensures var r := Step(loyal, visits, page, customer, day);
      forall c :: c in r.0 ==> TwoDaysTwoPages(c, seen + {Visit(customer, day, page)})
  {
    var seen' := seen + {Visit(customer, day, page)};
    var r := Step(loyal, visits, page, customer, day);
    StepFrame(loyal, visits, page, customer, day);
    if customer !in loyal && customer in visits {
      var d0 := SingletonMember(visits[customer].Keys);
      var p0 := SingletonMember(visits[customer][d0]);
      assert visits[customer] == map[d0 := {p0}];
      StepDecides(loyal, visits, page, customer, day, d0, p0);
      if d0 != day && p0 != page {
        assert Visit(customer, d0, p0) in seen';
        assert TwoDaysTwoPages(customer, seen') by {
          assert Visit(customer, d0, p0) in seen' && Visit(customer, day, page) in seen';
        }
      }
    }
    forall c | c in r.0 ensures TwoDaysTwoPages(c, seen') {
      if c in loyal {
        var v, w :| v in seen && w in seen && v.customer == c && w.customer == c && v.day != w.day && v.page != w.page;
        assert v in seen' && w in seen';
      }
    }
  }

  /** A whole file keeps the state consistent with the visits seen, the file's visits included. */
  lemma {:induction false} RunConsistent(loyal: set<string>, visits: Visits, seen: set<Visit>, lines: seq<string>, day: int)
    requires Consistent(loyal, visits, seen)
    ensures var r := Run(loyal, visits, lines, day);
      Consistent(r.0, r.1, seen + VisitsOn(lines, day))
    decreases |lines|
  {
    if |lines| > 0 {
      var v := Visit(Field(lines[0], 2), day, Field(lines[0], 1));
      var s := Step(loyal, visits, Field(lines[0], 1), Field(lines[0], 2), day);
      StepConsistent(loyal, visits, seen, Field(lines[0], 1), Field(lines[0], 2), day);
      RunConsistent(s.0, s.1, seen + {v}, lines[1..], day);
      assert seen + {v} + VisitsOn(lines[1..], day) == seen + VisitsOn(lines, day);
    } else {
      assert seen + VisitsOn(lines, day) == seen;
    }
  }

  /** Seen on two days with two different pages meets the doc comment's criterion. */
  lemma TwoDaysTwoPagesIsLoyal(c: string, seen: set<Visit>)
    requires TwoDaysTwoPages(c, seen)
    ensures LoyalByDefinition(c, seen)
  {
    var v, w :| v in seen && w in seen && v.customer == c && w.customer == c && v.day != w.day && v.page != w.page;
  }

  /**
   * `main`: the files of days 1, 2 and 3 processed in turn from an empty set and map. Every
   * customer reported loyal came on two different days and visited two different pages.
   */
  lemma ThreeDaysSound(day1: seq<string>, day2: seq<string>, day3: seq<string>)
    ensures var s1 := Run({}, map[], day1, 1);
      var s2 := Run(s1.0, s1.1, day2, 2);
      var s3 := Run(s2.0, s2.1, day3, 3);
      var seen := VisitsOn(day1, 1) + VisitsOn(day2, 2) + VisitsOn(day3, 3);
      forall c :: c in s3.0 ==> TwoDaysTwoPages(c, seen) && LoyalByDefinition(c, seen)
  {
    var s1 := Run({}, map[], day1, 1);
    var s2 := Run(s1.0, s1.1, day2, 2);
    var s3 := Run(s2.0, s2.1, day3, 3);
    var seen := VisitsOn(day1, 1) + VisitsOn(day2, 2) + VisitsOn(day3, 3);
    assert Consistent({}, map[], {});
    RunConsistent({}, map[], {}, day1, 1);
    assert {} + VisitsOn(day1, 1) == VisitsOn(day1, 1);
    RunConsistent(s1.0, s1.1, VisitsOn(day1, 1), day2, 2);
    RunConsistent(s2.0, s2.1, VisitsOn(day1, 1) + VisitsOn(day2, 2), day3, 3);
    forall c | c in s3.0 ensures TwoDaysTwoPages(c, seen) && LoyalByDefinition(c, seen) {
      TwoDaysTwoPagesIsLoyal(c, seen);
    }
  }

  /**
   * The pass is not complete for the doc comment's criterion: a second page seen on the day of the
   * first sighting goes into a copy of the day's set and is lost. Customer `c` sees pages `A` and `B`
   * on day 1 and page `A` on day 2, and is not reported loyal.
   */
  lemma SecondPageOnFirstDayIsLost()
    ensures var s1 := Step({}, map[], "A", "c", 1);
      var s2 := Step(s1.0, s1.1, "B", "c", 1);
      var s3 := Step(s2.0, s2.1, "A", "c", 2);
      && "c" !in s3.0
      && s3.1["c"] == map[1 := {"A"}]
      && LoyalByDefinition("c", {Visit("c", 1, "A"), Visit("c", 1, "B"), Visit("c", 2, "A")})
  {
    var m: Visits := map["c" := map[1 := {"A"}]];
    assert Step({}, map[], "A", "c", 1) == ({}, m);
    StepDecides({}, m, "B", "c", 1, 1, "A");
    StepDecides({}, m, "A", "c", 2, 1, "A");
    var seen := {Visit("c", 1, "A"), Visit("c", 1, "B"), Visit("c", 2, "A")};
    assert Visit("c", 1, "A") in seen && Visit("c", 2, "A") in seen;
    assert Visit("c", 1, "A") in seen && Visit("c", 1, "B") in seen;
  }
}
