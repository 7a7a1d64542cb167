/** REST polling capture: a book snapshot per poll and ticker, and each trade stored once. */
module RestPolls {

  /** A decoded JSON value: whether it is a string, whether it is truthy, and its text. */
  datatype Value = Value(isText: bool, truthy: bool, text: string)

  /** An entry of a trades response: a JSON object, or something else, which is skipped. */
  datatype Item = NotAnObject | Trade(fields: map<string, Value>)

  datatype Record =
    | BookRecord(ticker: string, poll: nat)
    | TradeRecord(ticker: string, poll: nat, key: string, item: Item)

  // ---- Trade keys ----

  /** The text of the first of the named fields that is truthy, or "". */
  function FirstTruthy(fields: map<string, Value>, names: seq<string>): string {
    if names == [] then ""
    else if names[0] in fields && fields[names[0]].truthy then fields[names[0]].text
    else FirstTruthy(fields, names[1..])
  }

  predicate HasTradeId(fields: map<string, Value>) {
    "trade_id" in fields && fields["trade_id"].isText && fields["trade_id"].text != ""
  }

  /** What identifies a trade that carries no id: time, yes price, no price, size, side. */
  function FieldTexts(fields: map<string, Value>): seq<string> {
    [FirstTruthy(fields, ["ts_ms", "ts"]),
     FirstTruthy(fields, ["yes_price_dollars", "yes_price", "price"]),
     FirstTruthy(fields, ["no_price_dollars", "no_price"]),
     FirstTruthy(fields, ["count_fp", "count", "quantity"]),
     FirstTruthy(fields, ["taker_side", "side"])]
  }

  function Joined(texts: seq<string>): string
    requires texts != []
  {
    if |texts| == 1 then texts[0] else texts[0] + ":" + Joined(texts[1..])
  }

  function TradeKey(ticker: string, fields: map<string, Value>): string {
    if HasTradeId(fields) then ticker + ":trade_id:" + fields["trade_id"].text
    else ticker + ":" + Joined(FieldTexts(fields))
  }

  predicate Truthy(fields: map<string, Value>, name: string) {
    name in fields && fields[name].truthy
  }

  /** The text of the first of three fields that is present and not empty or zero, or "". */
  function Preferred(fields: map<string, Value>, a: string, b: string, c: string): string {
    if Truthy(fields, a) then fields[a].text
    else if Truthy(fields, b) then fields[b].text
    else if Truthy(fields, c) then fields[c].text
    else ""
  }

  lemma PreferredIs(fields: map<string, Value>, a: string, b: string, c: string)
    ensures FirstTruthy(fields, [a, b, c]) == Preferred(fields, a, b, c)
    ensures FirstTruthy(fields, [a, b]) == Preferred(fields, a, b, b)
  {
    assert [a, b, c][1..] == [b, c] && [b, c][1..] == [c] && [c][1..] == [];
    assert [a, b][1..] == [b] && [b][1..] == [];
    assert FirstTruthy(fields, [c]) == Preferred(fields, c, c, c);
    assert FirstTruthy(fields, [b]) == Preferred(fields, b, b, b);
    assert FirstTruthy(fields, [b, c]) == Preferred(fields, b, c, c);
  }

  /** The key of a trade, written out: its ticker and id, or its ticker and five fields, each under the first of
      its names that is filled in. */
  lemma KeySpelled(ticker: string, f: map<string, Value>)
    ensures "trade_id" in f && f["trade_id"].isText && f["trade_id"].text != "" ==>
      TradeKey(ticker, f) == ticker + ":trade_id:" + f["trade_id"].text
    ensures !("trade_id" in f && f["trade_id"].isText && f["trade_id"].text != "") ==>
      TradeKey(ticker, f) ==
        ticker + ":" + (Preferred(f, "ts_ms", "ts", "ts")
        + ":" + (Preferred(f, "yes_price_dollars", "yes_price", "price")
        + ":" + (Preferred(f, "no_price_dollars", "no_price", "no_price")
        + ":" + (Preferred(f, "count_fp", "count", "quantity")
        + ":" + Preferred(f, "taker_side", "side", "side")))))
  {
    PreferredIs(f, "ts_ms", "ts", "ts");
    PreferredIs(f, "yes_price_dollars", "yes_price", "price");
    PreferredIs(f, "no_price_dollars", "no_price", "no_price");
    PreferredIs(f, "count_fp", "count", "quantity");
    PreferredIs(f, "taker_side", "side", "side");
    hide FirstTruthy;
    hide Preferred;
    JoinedFive(FieldTexts(f));
  }

  lemma JoinedFive(ts: seq<string>)
    requires |ts| == 5
    ensures Joined(ts) == ts[0] + ":" + (ts[1] + ":" + (ts[2] + ":" + (ts[3] + ":" + ts[4])))
  {
    var us := ts[1..];
    var vs := us[1..];
    assert Joined(vs[1..]) == ts[3] + ":" + ts[4];
    assert Joined(vs) == ts[2] + ":" + (ts[3] + ":" + ts[4]);
    assert Joined(us) == ts[1] + ":" + Joined(vs);
  }

  /** On one ticker, trades that carry an id have the same key exactly when they have the same id. */
  lemma KeyIsTradeId(ticker: string, f: map<string, Value>, g: map<string, Value>)
    requires HasTradeId(f) && HasTradeId(g)
    ensures TradeKey(ticker, f) == TradeKey(ticker, g) <==> f["trade_id"].text == g["trade_id"].text
  {
    var prefix := ticker + ":trade_id:";
    assert TradeKey(ticker, f) == prefix + f["trade_id"].text && TradeKey(ticker, g) == prefix + g["trade_id"].text;
    assert (prefix + f["trade_id"].text)[|prefix|..] == f["trade_id"].text;
    assert (prefix + g["trade_id"].text)[|prefix|..] == g["trade_id"].text;
  }

  predicate NoColon(texts: seq<string>) {
    forall i :: 0 <= i < |texts| ==> ':' !in texts[i]
  }

  lemma CutAtColon(a: string, x: string, b: string, y: string)
    requires ':' !in a && ':' !in b && a + ":" + x == b + ":" + y
    ensures a == b && x == y
  {
    var s := a + ":" + x;
    assert s[|a|] == ':' && s[|b|] == ':';
    assert s[..|a|] == a && s[..|b|] == b;
    assert |a| == |b|;
    assert s[|a| + 1..] == x && s[|b| + 1..] == y;
  }

  lemma {:induction false} JoinedInjective(ts: seq<string>, us: seq<string>)
    requires |ts| == |us| > 0 && NoColon(ts) && NoColon(us) && Joined(ts) == Joined(us)
    ensures ts == us
  {
    if |ts| > 1 {
      CutAtColon(ts[0], Joined(ts[1..]), us[0], Joined(us[1..]));
      JoinedInjective(ts[1..], us[1..]);
      assert ts == [ts[0]] + ts[1..] && us == [us[0]] + us[1..];
    }
  }

  /** Without ids the key stands for the joined fields, and for exactly the five fields as soon as one
      of the two trades has no colon inside a field. */
  lemma KeyIsFields(ticker: string, f: map<string, Value>, g: map<string, Value>)
    requires !HasTradeId(f) && !HasTradeId(g)
    ensures TradeKey(ticker, f) == TradeKey(ticker, g) <==> Joined(FieldTexts(f)) == Joined(FieldTexts(g))
    ensures NoColon(FieldTexts(f)) || NoColon(FieldTexts(g)) ==>
      (TradeKey(ticker, f) == TradeKey(ticker, g) <==> FieldTexts(f) == FieldTexts(g))
  {
    hide FieldTexts;
    hide Joined;
    FiveFields(f);
    FiveFields(g);
    UnambiguousIff(FieldTexts(f));
    UnambiguousIff(FieldTexts(g));
    var prefix := ticker + ":";
    assert (prefix + Joined(FieldTexts(f)))[|prefix|..] == Joined(FieldTexts(f));
    assert (prefix + Joined(FieldTexts(g)))[|prefix|..] == Joined(FieldTexts(g));
  }

  lemma FiveFields(f: map<string, Value>)
    ensures |FieldTexts(f)| == 5
  {
  }

  /** The joined texts can be taken apart in only one way. */
  ghost predicate Unambiguous(texts: seq<string>)
    requires texts != []
  {
    forall us: seq<string> :: |us| == |texts| && Joined(us) == Joined(texts) ==> us == texts
  }

  lemma JoinedPrefix(x: string, text: string, rest: seq<string>)
    ensures Joined([x + text] + rest) == x + Joined([text] + rest)
  {
    var long, short := [x + text] + rest, [text] + rest;
    assert long[1..] == rest && short[1..] == rest;
    if rest != [] {
      assert (x + text) + ":" + Joined(rest) == x + (text + ":" + Joined(rest));
    }
  }

  lemma JoinedCons(text: string, rest: seq<string>)
    requires rest != []
    ensures Joined([text] + rest) == text + ":" + Joined(rest)
  {
    assert ([text] + rest)[1..] == rest;
  }

  /** The colon between x and y may end the first text or separate it from the second. */
  lemma ColonMoves(x: string, y: string, u: string, more: seq<string>)
    ensures Joined([x] + ([y + ":" + u] + more)) == Joined([x + ":" + y] + ([u] + more))
  {
    var moved, rest := [y + ":" + u] + more, [u] + more;
    JoinedCons(x, moved);
    JoinedCons(x + ":" + y, rest);
    JoinedPrefix(y + ":", u, more);
    assert x + ":" + ((y + ":") + Joined(rest)) == (x + ":" + y) + ":" + Joined(rest);
  }

  /** A colon inside a text can be read as a separator, at the cost of the next or the previous one. */
  lemma {:induction false} ColonIsAmbiguous(texts: seq<string>, i: nat) returns (us: seq<string>)
    requires |texts| >= 2 && i < |texts| && ':' in texts[i]
    ensures |us| == |texts| && us != texts && Joined(us) == Joined(texts)
    decreases i
  {
    var t, rest := texts[0], texts[1..];
    assert texts == [t] + rest;
    JoinedCons(t, rest);
    if i == 0 {
      var k :| 0 <= k < |t| && t[k] == ':';
      var x, y, u, more := t[..k], t[k + 1..], rest[0], rest[1..];
      assert t == x + ":" + y && rest == [u] + more;
      us := [x] + ([y + ":" + u] + more);
      ColonMoves(x, y, u, more);
      assert us[0] != texts[0];
    } else if |texts| == 2 {
      var v := rest[0];
      var k :| 0 <= k < |v| && v[k] == ':';
      var x, y := v[..k], v[k + 1..];
      assert v == x + ":" + y && rest == [v];
      us := [t + ":" + x, y];
      assert us[1..] == [y];
      calc {
        Joined(us);
        (t + ":" + x) + ":" + y;
        t + ":" + (x + ":" + y);
        Joined(texts);
      }
      assert us[0] != texts[0];
    } else {
      var rest' := ColonIsAmbiguous(rest, i - 1);
      us := [t] + rest';
      JoinedCons(t, rest');
      assert us[1..] == rest';
    }
  }

  /** Joined texts can be taken apart in one way exactly when none of them contains a colon. */
  lemma UnambiguousIff(ts: seq<string>)
    requires |ts| >= 2
    ensures Unambiguous(ts) <==> NoColon(ts)
  {
    hide Joined;
    if NoColon(ts) {
      forall us: seq<string> | |us| == |ts| && Joined(us) == Joined(ts)
        ensures us == ts
      {
        ColonFreeIsUnique(ts, us);
      }
    } else {
      var i :| 0 <= i < |ts| && ':' in ts[i];
      var us := ColonIsAmbiguous(ts, i);
      assert |us| == |ts| && Joined(us) == Joined(ts) && us != ts;
    }
  }

  /** The decoded JSON string with this text. */
  function Text(t: string): Value {
    Value(true, t != "", t)
  }

  /** A trade object with the five given texts and no id. */
  function TradeWith(ts: seq<string>): map<string, Value>
    requires |ts| == 5
  {
    map["ts_ms" := Text(ts[0]), "yes_price_dollars" := Text(ts[1]), "no_price_dollars" := Text(ts[2]),
        "count_fp" := Text(ts[3]), "taker_side" := Text(ts[4])]
  }

  /** A name that is present decides the text if the names after it are absent. */
  lemma FirstNameDecides(fields: map<string, Value>, names: seq<string>, t: string)
    requires |names| > 0 && names[0] in fields && fields[names[0]] == Text(t)
    requires forall j :: 1 <= j < |names| ==> names[j] !in fields
    ensures FirstTruthy(fields, names) == t
  {
    var rest := names[1..];
    forall j | 0 <= j < |rest|
      ensures rest[j] !in fields
    {
      assert rest[j] == names[j + 1];
    }
    FirstTruthyNone(fields, rest);
  }

  lemma TradeWithHas(ts: seq<string>)
    requires |ts| == 5
    ensures !HasTradeId(TradeWith(ts)) && FieldTexts(TradeWith(ts)) == ts
  {
    hide FirstTruthy;
    var f := TradeWith(ts);
    FirstNameDecides(f, ["ts_ms", "ts"], ts[0]);
    FirstNameDecides(f, ["yes_price_dollars", "yes_price", "price"], ts[1]);
    FirstNameDecides(f, ["no_price_dollars", "no_price"], ts[2]);
    FirstNameDecides(f, ["count_fp", "count", "quantity"], ts[3]);
    FirstNameDecides(f, ["taker_side", "side"], ts[4]);
  }

  /** A colon in a field of a trade without an id lets another such trade, of plain JSON strings, take
      its key. */
  lemma ColonSharesKey(ticker: string, f: map<string, Value>) returns (ts: seq<string>)
    requires !HasTradeId(f) && !NoColon(FieldTexts(f))
    ensures |ts| == 5 && FieldTexts(TradeWith(ts)) != FieldTexts(f) && !HasTradeId(TradeWith(ts))
    ensures TradeKey(ticker, TradeWith(ts)) == TradeKey(ticker, f)
  {
    hide FieldTexts;
    hide Joined;
    hide TradeWith;
    FiveFields(f);
    var i :| 0 <= i < |FieldTexts(f)| && ':' in FieldTexts(f)[i];
    ts := ColonIsAmbiguous(FieldTexts(f), i);
    TradeWithHas(ts);
    KeyIsFields(ticker, f, TradeWith(ts));
  }

  /** No other trade without an id, however it is written, takes the key with different fields. */
  ghost predicate Identified(ticker: string, f: map<string, Value>) {
    forall g :: !HasTradeId(g) && TradeKey(ticker, g) == TradeKey(ticker, f) ==> FieldTexts(g) == FieldTexts(f)
  }

  /** Among trades without an id, a key identifies the five fields exactly when none of them contains a
      colon. */
  lemma FieldsIdentifiedIff(ticker: string, f: map<string, Value>)
    requires !HasTradeId(f)
    ensures Identified(ticker, f) <==> NoColon(FieldTexts(f))
  {
    hide FieldTexts;
    hide TradeKey;
    if NoColon(FieldTexts(f)) {
      forall g | !HasTradeId(g) && TradeKey(ticker, g) == TradeKey(ticker, f)
        ensures FieldTexts(g) == FieldTexts(f)
      {
        KeyIsFields(ticker, f, g);
      }
    } else {
      var ts := ColonSharesKey(ticker, f);
      assert !Identified(ticker, f);
    }
  }

  /** Two trades without ids and with one key: a clock time in the time field against the same
      characters spread over the time and the price. */
  lemma ClockTimesCollide(ticker: string)
    ensures var f, g := map["ts" := Text("9:30")], map["ts" := Text("9"), "price" := Text("30:")];
            && !HasTradeId(f) && !HasTradeId(g) && FieldTexts(f) != FieldTexts(g)
            && TradeKey(ticker, f) == TradeKey(ticker, g)
  {
    hide FieldTexts;
    hide Joined;
    var f, g := map["ts" := Text("9:30")], map["ts" := Text("9"), "price" := Text("30:")];
    TimeAndPrice(f, "9:30", "");
    TimeAndPrice(g, "9", "30:");
    ColonMoves("9", "30", "", ["", "", ""]);
    assert "9" + ":" + "30" == "9:30" && "30" + ":" + "" == "30:";
    KeyIsFields(ticker, f, g);
    assert FieldTexts(f)[0] == "9:30" && FieldTexts(g)[0] == "9";
    assert |"9:30"| != |"9"|;
  }

  lemma TimeAndPrice(f: map<string, Value>, time: string, price: string)
    requires f == map["ts" := Text(time)] + (if price == "" then map[] else map["price" := Text(price)])
    ensures FieldTexts(f) == [time] + ([price] + ["", "", ""])
  {
    hide FirstTruthy;
    FirstTruthyNone(f, ["no_price_dollars", "no_price"]);
    FirstTruthyNone(f, ["count_fp", "count", "quantity"]);
    FirstTruthyNone(f, ["taker_side", "side"]);
    LastNameDecides(f, ["ts_ms", "ts"], time);
    LastNameDecides(f, ["yes_price_dollars", "yes_price", "price"], price);
  }

  lemma {:induction false} LastNameDecides(fields: map<string, Value>, names: seq<string>, t: string)
    requires |names| > 0 && forall j :: 0 <= j < |names| - 1 ==> names[j] !in fields
    requires var name := names[|names| - 1]; if name in fields then fields[name] == Text(t) else t == ""
    ensures FirstTruthy(fields, names) == t
  {
    if |names| == 1 {
    } else {
      LastNameDecides(fields, names[1..], t);
    }
  }

  function Colons(s: string): nat {
    if s == "" then 0 else Colons(s[1..]) + (if s[0] == ':' then 1 else 0)
  }

  lemma {:induction false} ColonsConcat(s: string, t: string)
    ensures Colons(s + t) == Colons(s) + Colons(t)
  {
    if s == "" {
      assert s + t == t;
    } else {
      assert (s + t)[1..] == s[1..] + t;
      ColonsConcat(s[1..], t);
    }
  }

  lemma {:induction false} NoColons(s: string)
    ensures Colons(s) == 0 <==> ':' !in s
  {
    if s == "" {
    } else {
      NoColons(s[1..]);
      assert s == [s[0]] + s[1..];
    }
  }

  /** Joining n texts uses n - 1 colons, so a joined text with no others came from colon-free texts. */
  lemma {:induction false} JoinedColons(ts: seq<string>)
    requires ts != []
    ensures Colons(Joined(ts)) >= |ts| - 1
    ensures Colons(Joined(ts)) == |ts| - 1 <==> NoColon(ts)
  {
    if |ts| == 1 {
      NoColons(ts[0]);
      assert NoColon(ts) <==> ':' !in ts[0];
    } else {
      var rest := ts[1..];
      JoinedColons(rest);
      ColonsConcat(ts[0] + ":", Joined(rest));
      ColonsConcat(ts[0], ":");
      assert Colons(":") == 1 by { assert ":"[1..] == ""; }
      NoColons(ts[0]);
      assert NoColon(ts) <==> ':' !in ts[0] && NoColon(rest) by {
        if NoColon(ts) {
          assert forall i :: 0 <= i < |rest| ==> rest[i] == ts[i + 1];
        }
        if ':' !in ts[0] && NoColon(rest) {
          forall i | 0 <= i < |ts|
            ensures ':' !in ts[i]
          {
            if i > 0 {
              assert ts[i] == rest[i - 1];
            }
          }
        }
      }
    }
  }

  lemma ColonFreeIsUnique(ts: seq<string>, us: seq<string>)
    requires |us| == |ts| > 0 && NoColon(ts) && Joined(us) == Joined(ts)
    ensures us == ts
  {
    JoinedColons(ts);
    JoinedColons(us);
    JoinedInjective(ts, us);
  }

  /** A trade with an id shares its key with one without exactly when the latter's joined fields spell
      "trade_id" and the id; where those fields have no colon, its time must read "trade_id" and the id
      must spell the other four. One of the two trades is then never stored. */
  lemma KeyCollision(ticker: string, f: map<string, Value>, g: map<string, Value>)
    requires HasTradeId(f) && !HasTradeId(g)
    ensures var texts, id := FieldTexts(g), f["trade_id"].text;
            && (TradeKey(ticker, f) == TradeKey(ticker, g) <==> Joined(texts) == "trade_id:" + id)
            && (NoColon(texts) ==>
                  (TradeKey(ticker, f) == TradeKey(ticker, g) <==> texts[0] == "trade_id" && id == Joined(texts[1..])))
  {
    hide FieldTexts;
    FiveFields(g);
    var prefix, id := ticker + ":", f["trade_id"].text;
    var texts := FieldTexts(g);
    var byId, byFields := "trade_id" + ":" + id, Joined(texts);
    assert byId == "trade_id:" + id;
    assert byFields == texts[0] + ":" + Joined(texts[1..]);
    assert TradeKey(ticker, f) == prefix + byId;
    assert TradeKey(ticker, g) == prefix + byFields;
    assert (prefix + byId)[|prefix|..] == byId && (prefix + byFields)[|prefix|..] == byFields;
    if byId == byFields && NoColon(texts) {
      CutAtColon("trade_id", id, texts[0], Joined(texts[1..]));
    }
  }

  lemma FirstTruthyOf(fields: map<string, Value>, names: seq<string>, i: nat)
    requires i < |names| && names[i] in fields && fields[names[i]].truthy
    requires forall j :: 0 <= j < i ==> names[j] !in fields
    ensures FirstTruthy(fields, names) == fields[names[i]].text
    decreases names
  {
    if i > 0 {
      FirstTruthyOf(fields, names[1..], i - 1);
    }
  }

  lemma {:induction false} FirstTruthyNone(fields: map<string, Value>, names: seq<string>)
    requires forall j :: 0 <= j < |names| ==> names[j] !in fields
    ensures FirstTruthy(fields, names) == ""
  {
    if names == [] {
    } else {
      FirstTruthyNone(fields, names[1..]);
    }
  }

  /** A concrete pair of different trades with one key. */
  lemma CollidingTrades(ticker: string)
    ensures var f := map["trade_id" := Value(true, true, "9:::")];
            var g := map["ts" := Value(true, true, "trade_id"), "price" := Value(true, true, "9")];
            f != g && TradeKey(ticker, f) == TradeKey(ticker, g)
  {
    var f := map["trade_id" := Value(true, true, "9:::")];
    var g := map["ts" := Value(true, true, "trade_id"), "price" := Value(true, true, "9")];
    assert "ts" in g && "ts" !in f;
    FirstTruthyOf(g, ["ts_ms", "ts"], 1);
    FirstTruthyOf(g, ["yes_price_dollars", "yes_price", "price"], 2);
    FirstTruthyNone(g, ["no_price_dollars", "no_price"]);
    FirstTruthyNone(g, ["count_fp", "count", "quantity"]);
    FirstTruthyNone(g, ["taker_side", "side"]);
    assert FieldTexts(g) == ["trade_id", "9", "", "", ""];
    JoinExample();
    KeyCollision(ticker, f, g);
  }

  lemma JoinExample()
    ensures Joined(["trade_id", "9", "", "", ""]) == "trade_id:" + "9:::"
  {
    assert ["trade_id", "9", "", "", ""] == ["trade_id"] + ["9", "", "", ""];
    JoinedCons("trade_id", ["9", "", "", ""]);
    assert ["9", "", "", ""] == ["9"] + ["", "", ""];
    JoinedCons("9", ["", "", ""]);
    assert ["", "", ""] == [""] + ["", ""];
    JoinedCons("", ["", ""]);
    assert ["", ""] == [""] + [""];
    JoinedCons("", [""]);
  }

  ghost predicate ShareKey(t: string, u: string) {
    exists f: map<string, Value>, g: map<string, Value> :: TradeKey(t, f) == TradeKey(u, g)
  }

  /** Two different tickers can share a key exactly when one of them continues the other after a colon. */
  lemma TickersShareKeyIff(t: string, u: string)
    requires t != u
    ensures ShareKey(t, u) <==> t + ":" <= u || u + ":" <= t
  {
    hide TradeKey;
    if t + ":" <= u {
      ContinuedTicker(t, u);
    }
    if u + ":" <= t {
      ContinuedTicker(u, t);
    }
    if ShareKey(t, u) {
      var f: map<string, Value>, g: map<string, Value> :| TradeKey(t, f) == TradeKey(u, g);
      KeyStarts(t, f);
      KeyStarts(u, g);
      SharedStart(t, u, TradeKey(t, f));
    }
  }

  lemma SharedStart(t: string, u: string, key: string)
    requires t != u && t + ":" <= key && u + ":" <= key
    ensures t + ":" <= u || u + ":" <= t
  {
    assert key[..|t|] == t && key[..|u|] == u;
    if |t| < |u| {
      assert key[|t|] == ':' == u[|t|];
    } else if |u| < |t| {
      assert key[|u|] == ':' == t[|u|];
    }
  }

  lemma KeyStarts(t: string, f: map<string, Value>)
    ensures t + ":" <= TradeKey(t, f)
  {
    hide Joined;
    hide FieldTexts;
  }

  lemma ContinuedTicker(t: string, u: string)
    requires t + ":" <= u
    ensures ShareKey(t, u) && ShareKey(u, t)
  {
    hide Joined;
    hide FieldTexts;
    hide TradeWith;
    var w := u[|t| + 1..];
    var none := [""] + ["", "", "", ""];
    var some := [w + ":"] + ["", "", "", ""];
    TradeWithHas(none);
    TradeWithHas(some);
    assert w + ":" + "" == w + ":";
    JoinedPrefix(w + ":", "", ["", "", "", ""]);
    var f, g := TradeWith(some), TradeWith(none);
    assert u == t + ":" + w;
    assert TradeKey(t, f) == t + ":" + (w + ":" + Joined(none));
    assert TradeKey(u, g) == (t + ":" + w) + ":" + Joined(none);
    assert TradeKey(t, f) == TradeKey(u, g);
  }

  /** Trades of different tickers never share a key, as long as tickers contain no colon. */
  lemma KeysSeparateTickers(t: string, f: map<string, Value>, u: string, g: map<string, Value>)
    requires ':' !in t && ':' !in u && TradeKey(t, f) == TradeKey(u, g)
    ensures t == u
  {
    var x := if HasTradeId(f) then "trade_id:" + f["trade_id"].text else Joined(FieldTexts(f));
    var y := if HasTradeId(g) then "trade_id:" + g["trade_id"].text else Joined(FieldTexts(g));
    assert TradeKey(t, f) == t + ":" + x && TradeKey(u, g) == u + ":" + y;
    CutAtColon(t, x, u, y);
  }

  /** Across tickers too, trades that carry ids share a key exactly when ticker and id agree. */
  lemma KeyIsTickerAndId(t: string, f: map<string, Value>, u: string, g: map<string, Value>)
    requires ':' !in t && ':' !in u && HasTradeId(f) && HasTradeId(g)
    ensures TradeKey(t, f) == TradeKey(u, g) <==> t == u && f["trade_id"].text == g["trade_id"].text
  {
    if TradeKey(t, f) == TradeKey(u, g) {
      KeysSeparateTickers(t, f, u, g);
      KeyIsTradeId(t, f, g);
    }
  }

  // ---- The polled stream ----

  /** The trade records one response would give if nothing were filtered. */
  function Offered(ticker: string, poll: nat, items: seq<Item>): seq<Record> {
    if items == [] then []
    else
      var item := items[|items| - 1];
      Offered(ticker, poll, items[..|items| - 1])
      + (if item.Trade? then [TradeRecord(ticker, poll, TradeKey(ticker, item.fields), item)] else [])
  }

  function Keys(stream: seq<Record>): set<string> {
    set i | 0 <= i < |stream| && stream[i].TradeRecord? :: stream[i].key
  }

  /** The records whose key has not occurred before them. */
  function FirstOccurrences(stream: seq<Record>): seq<Record>
    requires forall r :: r in stream ==> r.TradeRecord?
  {
    if stream == [] then []
    else
      var init, r := stream[..|stream| - 1], stream[|stream| - 1];
      FirstOccurrences(init) + (if r.key in Keys(init) then [] else [r])
  }

  predicate AllTrades(stream: seq<Record>) {
    forall r :: r in stream ==> r.TradeRecord?
  }

  function Trades(store: seq<Record>): (ts: seq<Record>)
    ensures AllTrades(ts)
  {
    if store == [] then []
    else Trades(store[..|store| - 1]) + (if store[|store| - 1].TradeRecord? then [store[|store| - 1]] else [])
  }

  function Books(store: seq<Record>): seq<Record> {
    if store == [] then []
    else Books(store[..|store| - 1]) + (if store[|store| - 1].BookRecord? then [store[|store| - 1]] else [])
  }

  lemma KeysAppend(stream: seq<Record>, r: Record)
    requires r.TradeRecord?
    ensures Keys(stream + [r]) == Keys(stream) + {r.key}
  {
    var longer := stream + [r];
    assert longer[|stream|] == r;
    forall k | k in Keys(stream)
      ensures k in Keys(longer)
    {
      var i :| 0 <= i < |stream| && stream[i].TradeRecord? && stream[i].key == k;
      assert longer[i].TradeRecord? && longer[i].key == k;
    }
  }

  lemma StoreAppend(store: seq<Record>, r: Record)
    ensures Trades(store + [r]) == Trades(store) + (if r.TradeRecord? then [r] else [])
    ensures Books(store + [r]) == Books(store) + (if r.BookRecord? then [r] else [])
  {
    assert (store + [r])[..|store|] == store;
  }

  lemma FirstOccurrencesAppend(stream: seq<Record>, r: Record)
    requires AllTrades(stream) && r.TradeRecord?
    ensures AllTrades(stream + [r])
    ensures FirstOccurrences(stream + [r]) == FirstOccurrences(stream) + (if r.key in Keys(stream) then [] else [r])
  {
    assert (stream + [r])[..|stream|] == stream;
  }

  /** One stored record for every distinct key, with no key twice. */
  lemma {:induction false} OnePerKey(stream: seq<Record>)
    requires AllTrades(stream)
    ensures Keys(FirstOccurrences(stream)) == Keys(stream)
    ensures |FirstOccurrences(stream)| == |Keys(stream)|
  {
    if stream == [] {
    } else {
      var init, r := stream[..|stream| - 1], stream[|stream| - 1];
      OnePerKey(init);
      assert stream == init + [r];
      KeysAppend(init, r);
      if r.key !in Keys(init) {
        KeysAppend(FirstOccurrences(init), r);
      } else {
        assert FirstOccurrences(init) + [] == FirstOccurrences(init);
        assert Keys(init) + {r.key} == Keys(init);
      }
    }
  }

  /** Polling again and seeing only known keys stores no further trade. */
  lemma {:induction false} RepeatsAddNothing(stream: seq<Record>, again: seq<Record>)
    requires AllTrades(stream) && AllTrades(again) && Keys(again) <= Keys(stream)
    ensures AllTrades(stream + again) && FirstOccurrences(stream + again) == FirstOccurrences(stream)
    ensures Keys(stream + again) == Keys(stream)
  {
    if again == [] {
      assert stream + again == stream;
    } else {
      var init, r := again[..|again| - 1], again[|again| - 1];
      assert again == init + [r];
      KeysAppend(init, r);
      RepeatsAddNothing(stream, init);
      assert stream + again == (stream + init) + [r];
      KeysAppend(stream + init, r);
      FirstOccurrencesAppend(stream + init, r);
    }
  }

  /** Everything the trades endpoint returned, in the order polled; payloads[p][t] is the answer for
      ticker t in poll p. */
  function Stream(tickers: seq<string>, payloads: seq<seq<seq<Item>>>): seq<Record>
    requires forall p :: 0 <= p < |payloads| ==> |payloads[p]| == |tickers|
  {
    if payloads == [] then []
    else
      var p := |payloads| - 1;
      Stream(tickers, payloads[..p]) + PollStream(tickers, p, payloads[p])
  }

  function PollStream(tickers: seq<string>, poll: nat, answers: seq<seq<Item>>): seq<Record>
    requires |answers| <= |tickers|
  {
    if answers == [] then []
    else
      var t := |answers| - 1;
      PollStream(tickers, poll, answers[..t]) + Offered(tickers[t], poll, answers[t])
  }

  // ---- Repeated polls ----

  /** Some object of a response has this key. */
  ghost predicate Carries(ticker: string, items: seq<Item>, key: string) {
    exists i :: 0 <= i < |items| && items[i].Trade? && TradeKey(ticker, items[i].fields) == key
  }

  lemma {:induction false} OfferedKeys(ticker: string, poll: nat, items: seq<Item>, key: string)
    ensures AllTrades(Offered(ticker, poll, items))
    ensures key in Keys(Offered(ticker, poll, items)) <==> Carries(ticker, items, key)
  {
    hide TradeKey;
    if items == [] {
    } else {
      hide Keys;
      var init, item := items[..|items| - 1], items[|items| - 1];
      OfferedKeys(ticker, poll, init, key);
      CarriesAppend(ticker, init, item, key);
      assert items == init + [item];
      if item.Trade? {
        KeysAppend(Offered(ticker, poll, init), TradeRecord(ticker, poll, TradeKey(ticker, item.fields), item));
      } else {
        assert Offered(ticker, poll, items) == Offered(ticker, poll, init);
      }
    }
  }

  lemma CarriesAppend(ticker: string, init: seq<Item>, item: Item, key: string)
    ensures Carries(ticker, init + [item], key) <==>
      Carries(ticker, init, key) || (item.Trade? && TradeKey(ticker, item.fields) == key)
  {
    hide TradeKey;
    var items := init + [item];
    assert items[|init|] == item;
    if Carries(ticker, init, key) {
      var i :| 0 <= i < |init| && init[i].Trade? && TradeKey(ticker, init[i].fields) == key;
      assert items[i] == init[i];
    }
    if Carries(ticker, items, key) {
      var i :| 0 <= i < |items| && items[i].Trade? && TradeKey(ticker, items[i].fields) == key;
      assert i < |init| ==> items[i] == init[i];
    }
  }

  lemma KeysConcat(s: seq<Record>, t: seq<Record>)
    ensures Keys(s + t) == Keys(s) + Keys(t)
  {
    forall k
      ensures k in Keys(s + t) <==> k in Keys(s) || k in Keys(t)
    {
      if k in Keys(s) {
        var i :| 0 <= i < |s| && s[i].TradeRecord? && s[i].key == k;
        assert (s + t)[i] == s[i];
      }
      if k in Keys(t) {
        var i :| 0 <= i < |t| && t[i].TradeRecord? && t[i].key == k;
        assert (s + t)[|s| + i] == t[i];
      }
    }
  }

  /** Some response of a poll has this key. */
  ghost predicate PollCarries(tickers: seq<string>, answers: seq<seq<Item>>, key: string)
    requires |answers| <= |tickers|
  {
    exists t :: 0 <= t < |answers| && Carries(tickers[t], answers[t], key)
  }

  /** The keys a poll streams do not depend on when it is made. */
  lemma {:induction false} PollKeys(tickers: seq<string>, poll: nat, answers: seq<seq<Item>>, key: string)
    requires |answers| <= |tickers|
    ensures AllTrades(PollStream(tickers, poll, answers))
    ensures key in Keys(PollStream(tickers, poll, answers)) <==> PollCarries(tickers, answers, key)
  {
    hide Carries;
    if answers == [] {
    } else {
      hide Keys;
      hide Offered;
      var t := |answers| - 1;
      var init := answers[..t];
      PollKeys(tickers, poll, init, key);
      OfferedKeys(tickers[t], poll, answers[t], key);
      KeysConcat(PollStream(tickers, poll, init), Offered(tickers[t], poll, answers[t]));
      if PollCarries(tickers, init, key) {
        var u :| 0 <= u < |init| && Carries(tickers[u], init[u], key);
        assert Carries(tickers[u], answers[u], key);
      }
      if PollCarries(tickers, answers, key) {
        var u :| 0 <= u < |answers| && Carries(tickers[u], answers[u], key);
        assert u < t ==> init[u] == answers[u];
      }
    }
  }

  lemma {:induction false} StreamKeys(tickers: seq<string>, payloads: seq<seq<seq<Item>>>, p: nat, key: string)
    requires forall q :: 0 <= q < |payloads| ==> |payloads[q]| == |tickers|
    requires p < |payloads| && PollCarries(tickers, payloads[p], key)
    ensures key in Keys(Stream(tickers, payloads))
  {
    hide Keys;
    hide PollCarries;
    hide PollStream;
    var n := |payloads| - 1;
    KeysConcat(Stream(tickers, payloads[..n]), PollStream(tickers, n, payloads[n]));
    if p == n {
      PollKeys(tickers, n, payloads[n], key);
    } else {
      StreamKeys(tickers, payloads[..n], p, key);
    }
  }

  lemma {:induction false} StreamIsTrades(tickers: seq<string>, payloads: seq<seq<seq<Item>>>)
    requires forall q :: 0 <= q < |payloads| ==> |payloads[q]| == |tickers|
    ensures AllTrades(Stream(tickers, payloads))
  {
    hide PollStream;
    if payloads == [] {
    } else {
      var n := |payloads| - 1;
      StreamIsTrades(tickers, payloads[..n]);
      PollKeys(tickers, n, payloads[n], "");
    }
  }

  /** Every object in the new answers was already in some earlier answer for the same ticker. */
  ghost predicate NothingNew(payloads: seq<seq<seq<Item>>>, answers: seq<seq<Item>>) {
    forall t, i :: 0 <= t < |answers| && 0 <= i < |answers[t]| && answers[t][i].Trade? ==>
      Before(payloads, t, answers[t][i])
  }

  ghost predicate Before(payloads: seq<seq<seq<Item>>>, t: nat, item: Item) {
    exists p :: 0 <= p < |payloads| && t < |payloads[p]| && item in payloads[p][t]
  }

  /** One more poll that returns nothing new stores no further trade, whenever it is made. */
  lemma RepeatedPollAddsNothing(tickers: seq<string>, payloads: seq<seq<seq<Item>>>, answers: seq<seq<Item>>)
    requires forall q :: 0 <= q < |payloads| ==> |payloads[q]| == |tickers|
    requires |answers| == |tickers| && NothingNew(payloads, answers)
    ensures var stream, longer := Stream(tickers, payloads), Stream(tickers, payloads + [answers]);
            && AllTrades(stream) && AllTrades(longer)
            && FirstOccurrences(longer) == FirstOccurrences(stream) && Keys(longer) == Keys(stream)
  {
    hide Keys;
    hide PollStream;
    hide FirstOccurrences;
    var stream, again := Stream(tickers, payloads), PollStream(tickers, |payloads|, answers);
    var more := payloads + [answers];
    assert more[..|payloads|] == payloads && more[|payloads|] == answers;
    assert Stream(tickers, more) == stream + again;
    StreamIsTrades(tickers, payloads);
    PollKeys(tickers, |payloads|, answers, "");
    forall key | key in Keys(again)
      ensures key in Keys(stream)
    {
      PollKeys(tickers, |payloads|, answers, key);
      var t :| 0 <= t < |answers| && Carries(tickers[t], answers[t], key);
      var i :| 0 <= i < |answers[t]| && answers[t][i].Trade? && TradeKey(tickers[t], answers[t][i].fields) == key;
      var item := answers[t][i];
      assert Before(payloads, t, item);
      var p :| 0 <= p < |payloads| && t < |payloads[p]| && item in payloads[p][t];
      var j :| 0 <= j < |payloads[p][t]| && payloads[p][t][j] == item;
      assert Carries(tickers[t], payloads[p][t], key);
      StreamKeys(tickers, payloads, p, key);
    }
    RepeatsAddNothing(stream, again);
  }

  function Snapshots(tickers: seq<string>, poll: nat, n: nat): (bs: seq<Record>)
    requires n <= |tickers|
    ensures |bs| == n
  {
    if n == 0 then [] else Snapshots(tickers, poll, n - 1) + [BookRecord(tickers[n - 1], poll)]
  }

  function AllSnapshots(tickers: seq<string>, polls: nat): (bs: seq<Record>)
    ensures |bs| == polls * |tickers|
  {
    if polls == 0 then [] else AllSnapshots(tickers, polls - 1) + Snapshots(tickers, polls - 1, |tickers|)
  }

  /** The books of all polls: in every poll one for each ticker, in order. */
  lemma {:induction false} SnapshotAt(tickers: seq<string>, polls: nat, p: nat, t: nat)
    requires p < polls && t < |tickers|
    ensures p * |tickers| + t < polls * |tickers|
    ensures AllSnapshots(tickers, polls)[p * |tickers| + t] == BookRecord(tickers[t], p)
  {
    var before := AllSnapshots(tickers, polls - 1);
    assert polls * |tickers| == (polls - 1) * |tickers| + |tickers|;
    if p == polls - 1 {
      SnapshotIn(tickers, p, |tickers|, t);
      assert AllSnapshots(tickers, polls)[|before| + t] == Snapshots(tickers, p, |tickers|)[t];
    } else {
      SnapshotAt(tickers, polls - 1, p, t);
    }
  }

  lemma {:induction false} SnapshotIn(tickers: seq<string>, poll: nat, n: nat, t: nat)
    requires t < n <= |tickers|
    ensures Snapshots(tickers, poll, n)[t] == BookRecord(tickers[t], poll)
  {
    if t < n - 1 {
      SnapshotIn(tickers, poll, n - 1, t);
    }
  }

  lemma {:induction false} StoreSize(store: seq<Record>)
    ensures |store| == |Books(store)| + |Trades(store)|
  {
    if store == [] {
    } else {
      StoreSize(store[..|store| - 1]);
    }
  }
}
