/** Orders as sellers see and change them. */
module SellerOrders {

  import opened Common

  datatype Items = Items(mileage: string, user: string)
  datatype Reply = Reply(sellerId: string, cost: string, time: string, feedback: string, items: Option<Items>)

  datatype Order = Order(orderId: string, userId: string, orderType: string, serviceType: string,
                         status: string, targets: seq<string>, replies: Option<seq<Reply>>,
                         selectedSeller: Option<string>, about: About, detail: Detail)

  // Fields that are shown and never looked at.
  datatype About = About(userName: string, title: string, dateTime: string, plateNumber: string, carBrand: string)

  // The detail document: its services, and the rest of it.
  datatype Detail = Detail(services: seq<string>, rest: string)

  datatype Request = Request(role: string, sellerId: string, orderId: string, status: string,
                             cost: string, time: string, feedback: string, items: Items)

  datatype Code = OK | InvalidClientReq | ServerInternal

  const Book: string := "books"
  const Bidding: string := "bidding"
  const Maintenance: string := "车辆保养"

  // ---------- One request on one order ----------

  predicate Accepted(req: Request) {
    req.sellerId != "" && req.orderId != "" && req.status != "" && req.role == "seller"
  }

  function ReplyOf(o: Order, req: Request): Reply {
    Reply(req.sellerId, req.cost, req.time, req.feedback,
          if o.orderType == Bidding && o.serviceType == Maintenance then Some(req.items) else None)
  }

  function Replies(o: Order): seq<Reply> {
    if o.replies.None? then [] else o.replies.value
  }

  // $pull: every occurrence goes.
  function Without(targets: seq<string>, gone: set<string>): (r: seq<string>)
    ensures forall s :: s in r <==> s in targets && s !in gone
  {
    if targets == [] then []
    else (if targets[0] in gone then [] else [targets[0]]) + Without(targets[1..], gone)
  }

  function Change(o: Order, req: Request): Order {
    if req.status == "agree" then
      if o.status == "new" then o.(replies := Some(Replies(o) + [ReplyOf(o, req)])) else o
    else if req.status == "ignore" || req.status == "canceled" then
      o.(targets := Without(o.targets, {req.sellerId}))
    else if req.status == "completed" then o.(status := "completed")
    else o
  }

  function Answer(o: Order, req: Request): Code {
    if req.status == "agree" && o.status != "new" then ServerInternal else OK
  }

  // ---------- The collection; a query finds the first order of an id ----------

  function IndexOf(docs: seq<Order>, id: string): (i: nat)
    ensures i <= |docs|
    ensures i < |docs| ==> docs[i].orderId == id
    ensures forall j :: 0 <= j < i ==> docs[j].orderId != id
  {
    if docs == [] || docs[0].orderId == id then 0 else 1 + IndexOf(docs[1..], id)
  }

  function Put(docs: seq<Order>, req: Request): (r: seq<Order>)
    ensures |r| == |docs|
  {
    var i := IndexOf(docs, req.orderId);
    if Accepted(req) && i < |docs| then docs[i := Change(docs[i], req)] else docs
  }

  function PutCode(docs: seq<Order>, req: Request): Code {
    var i := IndexOf(docs, req.orderId);
    if !Accepted(req) || i == |docs| then InvalidClientReq else Answer(docs[i], req)
  }

  function Run(docs: seq<Order>, reqs: seq<Request>): (r: seq<Order>)
    ensures |r| == |docs|
    decreases |reqs|
  {
    if reqs == [] then docs else Run(Put(docs, reqs[0]), reqs[1..])
  }

  // ---------- Lists ----------

  predicate HasReplyFrom(o: Order, seller: string) {
    exists r <- Replies(o) :: r.sellerId == seller
  }

  // The open list: orders a seller may still answer.
  predicate Open(o: Order, seller: string) {
    seller in o.targets && o.status == "new" && !HasReplyFrom(o, seller)
  }

  predicate Matches(o: Order, scope: string, seller: string, user: string) {
    if scope == "user" then o.selectedSeller == Some(seller) && o.userId == user
    else if scope == "seller" then HasReplyFrom(o, seller)
    else Open(o, seller)
  }

  function FirstReply(replies: seq<Reply>, seller: string): Option<Reply> {
    if replies == [] then None
    else if replies[0].sellerId == seller then Some(replies[0])
    else FirstReply(replies[1..], seller)
  }

  datatype Shown = Services(services: seq<string>) | Whole(detail: Detail) | Hidden

  datatype Info = Info(orderId: string, userId: string, orderType: string, serviceType: string, status: string,
                       about: About, detail: Shown, reply: Option<Reply>)

  // Booked services, or the whole detail of a bidding.
  function ShownDetail(o: Order): Shown {
    if o.orderType == Book then Services(o.detail.services)
    else if o.orderType == Bidding then Whole(o.detail)
    else Hidden
  }

  function Describe(o: Order, scope: string, seller: string): Info {
    Info(o.orderId, o.userId, o.orderType, o.serviceType, o.status, o.about, ShownDetail(o),
         if scope == "seller" then FirstReply(Replies(o), seller) else None)
  }

  // The orders a query matches, in collection order.
  function Query(docs: seq<Order>, scope: string, seller: string, user: string): seq<Order> {
    if docs == [] then [] else
    (if Matches(docs[0], scope, seller, user) then [docs[0]] else []) + Query(docs[1..], scope, seller, user)
  }

  // What the database makes of number and offset: matches, number, offset to orders.
  type Page = (seq<Order>, int, int) -> seq<Order>

  function Listing(orders: seq<Order>, scope: string, seller: string): seq<Info> {
    if orders == [] then [] else [Describe(orders[0], scope, seller)] + Listing(orders[1..], scope, seller)
  }

  // ---------- The program ----------

  class Orders {
    var docs: seq<Order>

    constructor (initial: seq<Order>)
      ensures docs == initial
    {
      docs := initial;
    }

    method PutRequest(req: Request) returns (code: Code)
      modifies this
      ensures req.sellerId == "" || req.orderId == "" || req.status == "" || req.role != "seller" ==>
                code == InvalidClientReq && docs == old(docs)
      ensures (forall i :: 0 <= i < |old(docs)| ==> old(docs)[i].orderId != req.orderId) ==>
                code == InvalidClientReq && docs == old(docs)
      ensures docs == Put(old(docs), req)
      ensures code == PutCode(old(docs), req)
    {
      if req.sellerId == "" || req.orderId == "" || req.status == "" { return InvalidClientReq; }
      if req.role != "seller" { return InvalidClientReq; }
      var i := IndexOf(docs, req.orderId);
      if i == |docs| { return InvalidClientReq; }
      var order := docs[i];
      if req.status == "agree" {
        if order.status != "new" { return ServerInternal; }
        var reply := ReplyOf(order, req);
        assert [] + [reply] == [reply];
        if order.replies.None? {
          docs := docs[i := order.(replies := Some([reply]))];
        } else {
          docs := docs[i := order.(replies := Some(order.replies.value + [reply]))];
        }
      } else if req.status == "ignore" {
        docs := docs[i := order.(targets := Without(order.targets, {req.sellerId}))];
      } else if req.status == "canceled" {
        docs := docs[i := order.(targets := Without(order.targets, {req.sellerId}))];
      } else if req.status == "completed" {
        docs := docs[i := order.(status := "completed")];
      } else {
        assert docs[i := order] == docs;
      }
      return OK;
    }

    // None is a request without role or seller.
    method List(role: string, scope: string, seller: string, user: string, number: int, offset: int, page: Page)
      returns (out: Option<seq<Info>>)
      ensures out.None? <==> role == "" || seller == ""
      ensures out.Some? ==> out.value == Listing(page(Query(docs, scope, seller, user), number, offset), scope, seller)
    {
      hide Listing, Query, Describe;
      if role == "" || seller == "" { return None; }
      var cursor := page(Query(docs, scope, seller, user), number, offset);
      var orders: seq<Info> := [];
      assert cursor[0..] == cursor;
      for i := 0 to |cursor|
        invariant orders + Listing(cursor[i..], scope, seller) == Listing(cursor, scope, seller)
      {
        ListingStep(cursor, i, scope, seller);
        var info := Inform(cursor[i], scope, seller);
        orders := orders + [info];
      }
      assert cursor[|cursor|..] == [];
      ListingEnd(scope, seller);
      return Some(orders);
    }
  }

  // Body of the loop.
  method Inform(obj: Order, scope: string, seller: string) returns (info: Info)
    ensures info == Describe(obj, scope, seller)
  {
    var detail := ShowDetail(obj);
    var reply: Option<Reply> := None;
    if scope == "seller" && obj.replies.Some? {
      reply := SelectReply(obj.replies.value, seller);
    }
    info := Info(obj.orderId, obj.userId, obj.orderType, obj.serviceType, obj.status, obj.about, detail, reply);
  }

  method ShowDetail(obj: Order) returns (detail: Shown)
    ensures detail == ShownDetail(obj)
  {
    detail := Hidden;
    if obj.orderType == Book {
      var services: seq<string> := [];
      for i := 0 to |obj.detail.services|
        invariant services == obj.detail.services[..i]
      {
        services := services + [obj.detail.services[i]];
      }
      detail := Services(services);
    } else if obj.orderType == Bidding {
      detail := Whole(obj.detail);
    }
  }

  lemma ListingStep(orders: seq<Order>, i: nat, scope: string, seller: string)
    requires i < |orders|
    ensures Listing(orders[i..], scope, seller) == [Describe(orders[i], scope, seller)] + Listing(orders[i + 1..], scope, seller)
  {
    hide Describe;
    assert orders[i..][1..] == orders[i + 1..];
  }

  lemma ListingEnd(scope: string, seller: string)
    ensures Listing([], scope, seller) == []
  {
  }

  /** The three queries: orders of a user who selected the seller, orders the seller has answered, and new orders
      meant for the seller that it has not answered. */
  lemma QueryFinds(docs: seq<Order>, scope: string, seller: string, user: string, o: Order)
    ensures var found := o in Query(docs, scope, seller, user);
            && (scope == "user" ==> (found <==> o in docs && o.selectedSeller == Some(seller) && o.userId == user))
            && (scope == "seller" ==> (found <==> o in docs && exists r <- Replies(o) :: r.sellerId == seller))
            && (scope != "user" && scope != "seller" ==>
                  (found <==> o in docs && seller in o.targets && o.status == "new" && forall r <- Replies(o) :: r.sellerId != seller))
  {
    hide Query;
    QueryFindsMatches(docs, scope, seller, user, o);
  }

  /** A query keeps the order of the collection. */
  lemma {:induction false} QueryKeepsOrder(a: seq<Order>, b: seq<Order>, scope: string, seller: string, user: string)
    ensures Query(a + b, scope, seller, user) == Query(a, scope, seller, user) + Query(b, scope, seller, user)
  {
    hide Query;
    if a == [] {
      assert a + b == b;
      QueryNothing(scope, seller, user);
    } else {
      assert a == [a[0]] + a[1..] && a + b == [a[0]] + (a[1..] + b);
      QueryKeepsOrder(a[1..], b, scope, seller, user);
      QueryCons(a[0], a[1..], scope, seller, user);
      QueryCons(a[0], a[1..] + b, scope, seller, user);
    }
  }

  lemma QueryNothing(scope: string, seller: string, user: string)
    ensures Query([], scope, seller, user) == []
  {
  }

  lemma QueryCons(o: Order, docs: seq<Order>, scope: string, seller: string, user: string)
    ensures Query([o] + docs, scope, seller, user)
         == (if Matches(o, scope, seller, user) then [o] else []) + Query(docs, scope, seller, user)
  {
    hide Matches;
    assert ([o] + docs)[1..] == docs;
  }

  /** Every listed order is described by its own fields: the services of a booking, the whole detail of a bidding, and
      the seller's reply in the list of answered orders only. */
  lemma {:induction false} ListingAt(orders: seq<Order>, scope: string, seller: string, i: nat)
    requires i < |orders|
    ensures |Listing(orders, scope, seller)| == |orders|
    ensures var info, o := Listing(orders, scope, seller)[i], orders[i];
            && info.orderId == o.orderId && info.userId == o.userId && info.orderType == o.orderType
            && info.serviceType == o.serviceType && info.status == o.status && info.about == o.about
            && info.detail == (if o.orderType == "books" then Services(o.detail.services)
                               else if o.orderType == "bidding" then Whole(o.detail) else Hidden)
            && (scope != "seller" ==> info.reply == None)
            && (scope == "seller" ==> info.reply == FirstReply(Replies(o), seller))
  {
    if |orders| > 1 { ListingAt(orders[1..], scope, seller, if i == 0 then 0 else i - 1); }
  }

  /** A query returns exactly the orders it matches. */
  lemma {:induction false} QueryFindsMatches(docs: seq<Order>, scope: string, seller: string, user: string, o: Order)
    ensures o in Query(docs, scope, seller, user) <==> o in docs && Matches(o, scope, seller, user)
  {
    hide Matches;
    if docs != [] {
      QueryFindsMatches(docs[1..], scope, seller, user, o);
      assert docs == [docs[0]] + docs[1..];
    }
  }

  method SelectReply(replies: seq<Reply>, seller: string) returns (reply: Option<Reply>)
    ensures reply == FirstReply(replies, seller)
  {
    assert replies[0..] == replies;
    for i := 0 to |replies|
      invariant FirstReply(replies, seller) == FirstReply(replies[i..], seller)
    {
      assert replies[i..][1..] == replies[i + 1..];
      if replies[i].sellerId == seller { return Some(replies[i]); }
    }
    return None;
  }

  // ---------- One request, in the words of the request ----------

  // An accepted request for the first order of its id, at i.
  predicate Addresses(req: Request, docs: seq<Order>, i: nat) {
    && req.sellerId != "" && req.orderId != "" && req.status != "" && req.role == "seller"
    && i < |docs| && docs[i].orderId == req.orderId
    && forall j :: 0 <= j < i ==> docs[j].orderId != req.orderId
  }

  /** Agreeing to a new order stores the seller's cost, time and feedback, and the items only of a bidding
      for maintenance; an order that is not new is refused. */
  lemma AgreeStores(docs: seq<Order>, req: Request, i: nat)
    requires Addresses(req, docs, i) && req.status == "agree"
    ensures docs[i].status == "new" ==>
              var replies := Replies(Put(docs, req)[i]);
              && PutCode(docs, req) == OK
              && |replies| == |Replies(docs[i])| + 1 && replies[..|replies| - 1] == Replies(docs[i])
              && var reply := replies[|replies| - 1];
                 && reply.sellerId == req.sellerId && reply.cost == req.cost
                 && reply.time == req.time && reply.feedback == req.feedback
                 && reply.items == if docs[i].orderType == "bidding" && docs[i].serviceType == "车辆保养"
                                   then Some(req.items) else None
    ensures docs[i].status != "new" ==> PutCode(docs, req) == ServerInternal && Put(docs, req) == docs
  {
    FirstIndex(docs, req, i);
    if docs[i].status != "new" { assert docs[i := docs[i]] == docs; }
  }

  lemma FirstIndex(docs: seq<Order>, req: Request, i: nat)
    requires Addresses(req, docs, i)
    ensures Accepted(req) && IndexOf(docs, req.orderId) == i
  {
  }

  /** Withdrawing takes the seller, and nobody else, off the targets; completing sets the status; any other word
      changes nothing. All three are answered with OK. */
  lemma OtherWords(docs: seq<Order>, req: Request, i: nat)
    requires Addresses(req, docs, i) && req.status != "agree"
    ensures PutCode(docs, req) == OK
    ensures req.status == "ignore" || req.status == "canceled" ==>
              && Put(docs, req) == docs[i := docs[i].(targets := Put(docs, req)[i].targets)]
              && forall s :: s in Put(docs, req)[i].targets <==> s in docs[i].targets && s != req.sellerId
    ensures req.status == "completed" ==> Put(docs, req) == docs[i := docs[i].(status := "completed")]
    ensures req.status !in {"ignore", "canceled", "completed"} ==> Put(docs, req) == docs
  {
    FirstIndex(docs, req, i);
    assert docs[i := docs[i]] == docs;
  }

  // ---------- A whole run, order by order ----------

  // Requests of a run that reach the order of this id.
  function Reaching(reqs: seq<Request>, id: string): seq<Request> {
    if reqs == [] then []
    else (if Accepted(reqs[0]) && reqs[0].orderId == id then [reqs[0]] else []) + Reaching(reqs[1..], id)
  }

  function RunOne(o: Order, reqs: seq<Request>): Order
    decreases |reqs|
  {
    if reqs == [] then o else RunOne(Change(o, reqs[0]), reqs[1..])
  }

  lemma IndexOfKept(docs: seq<Order>, req: Request, id: string)
    ensures IndexOf(Put(docs, req), id) == IndexOf(docs, id)
  {
    var docs' := Put(docs, req);
    assert forall j :: 0 <= j < |docs| ==> docs'[j].orderId == docs[j].orderId;
  }

  lemma PutAt(docs: seq<Order>, req: Request, i: nat)
    requires i < |docs|
    ensures Put(docs, req)[i] ==
            if Accepted(req) && req.orderId == docs[i].orderId && i == IndexOf(docs, docs[i].orderId)
            then Change(docs[i], req) else docs[i]
  {
    hide Change, Accepted;
  }

  /** Orders do not disturb each other: each ends as the requests that reach
      it leave it, and one hidden behind an earlier order of its id never
      changes. */
  lemma {:induction false} RunAt(docs: seq<Order>, reqs: seq<Request>, i: nat)
    requires i < |docs|
    ensures Run(docs, reqs)[i] ==
            if i == IndexOf(docs, docs[i].orderId) then RunOne(docs[i], Reaching(reqs, docs[i].orderId)) else docs[i]
    decreases |reqs|
  {
    hide Put, Change, Accepted, IndexOf;
    if reqs != [] {
      var id := docs[i].orderId;
      var docs' := Put(docs, reqs[0]);
      PutAt(docs, reqs[0], i);
      ChangeKeepsId(docs[i], reqs[0]);
      IndexOfKept(docs, reqs[0], id);
      RunAt(docs', reqs[1..], i);
      var more := Reaching(reqs[1..], id);
      if Accepted(reqs[0]) && reqs[0].orderId == id {
        assert ([reqs[0]] + more)[1..] == more;
      } else {
        assert [] + more == more;
      }
    }
  }

  lemma ChangeKeepsId(o: Order, req: Request)
    ensures Change(o, req).orderId == o.orderId
  {
  }

  // ---------- The final order in closed form ----------

  predicate Completes(reqs: seq<Request>) {
    exists r <- reqs :: r.status == "completed"
  }

  // Sellers that withdrew.
  function Withdrawn(reqs: seq<Request>): set<string> {
    set r <- reqs | r.status == "ignore" || r.status == "canceled" :: r.sellerId
  }

  // Replies to an order that is new: those before it is completed, in order.
  function NewReplies(o: Order, reqs: seq<Request>): seq<Reply> {
    if reqs == [] || reqs[0].status == "completed" then []
    else (if reqs[0].status == "agree" then [ReplyOf(o, reqs[0])] else []) + NewReplies(o, reqs[1..])
  }

  lemma {:induction false} WithoutTwice(t: seq<string>, a: set<string>, b: set<string>)
    ensures Without(Without(t, a), b) == Without(t, a + b)
  {
    if t != [] {
      WithoutTwice(t[1..], a, b);
      var rest := Without(t[1..], a);
      if t[0] in a { assert [] + rest == rest; } else { assert ([t[0]] + rest)[1..] == rest; }
    }
  }

  lemma {:induction false} WithoutNone(t: seq<string>)
    ensures Without(t, {}) == t
  {
    if t != [] { WithoutNone(t[1..]); }
  }

  lemma {:induction false} FinalStatus(o: Order, reqs: seq<Request>)
    ensures RunOne(o, reqs).status == if Completes(reqs) then "completed" else o.status
    decreases |reqs|
  {
    if reqs != [] {
      FinalStatus(Change(o, reqs[0]), reqs[1..]);
      assert reqs == [reqs[0]] + reqs[1..];
    }
  }

  lemma {:induction false} FinalTargets(o: Order, reqs: seq<Request>)
    ensures RunOne(o, reqs).targets == Without(o.targets, Withdrawn(reqs))
    decreases |reqs|
  {
    if reqs == [] {
      assert Withdrawn(reqs) == {};
      WithoutNone(o.targets);
    } else {
      var r, more := reqs[0], reqs[1..];
      assert reqs == [r] + more;
      FinalTargets(Change(o, r), more);
      var gone := if r.status == "ignore" || r.status == "canceled" then {r.sellerId} else {};
      assert Withdrawn(reqs) == gone + Withdrawn(more);
      WithoutTwice(o.targets, gone, Withdrawn(more));
      WithoutNone(o.targets);
    }
  }

  // Nothing else about an order changes.
  predicate SameOrder(o: Order, p: Order) {
    p == o.(status := p.status, targets := p.targets, replies := p.replies)
  }

  lemma NewRepliesSame(o: Order, p: Order, reqs: seq<Request>)
    requires SameOrder(o, p)
    ensures NewReplies(o, reqs) == NewReplies(p, reqs)
  {
  }

  lemma ChangedReplies(o: Order, req: Request)
    ensures var p := Change(o, req);
            && SameOrder(o, p)
            && p.status == (if req.status == "completed" then "completed" else o.status)
            && Replies(p) == Replies(o) + if o.status == "new" && req.status == "agree" then [ReplyOf(o, req)] else []
  {
    hide ReplyOf;
  }

  // What one request of a run adds, and the rest of the run.
  lemma NewRepliesStep(o: Order, reqs: seq<Request>)
    requires reqs != []
    ensures NewReplies(o, reqs) ==
            if reqs[0].status == "completed" then []
            else (if reqs[0].status == "agree" then [ReplyOf(o, reqs[0])] else []) + NewReplies(o, reqs[1..])
  {
  }

  lemma SameOrderTwice(o: Order, p: Order, q: Order)
    requires SameOrder(o, p) && SameOrder(p, q)
    ensures SameOrder(o, q)
  {
  }

  lemma {:induction false} FinalReplies(o: Order, reqs: seq<Request>)
    ensures Replies(RunOne(o, reqs)) == Replies(o) + (if o.status == "new" then NewReplies(o, reqs) else [])
    ensures SameOrder(o, RunOne(o, reqs))
    decreases |reqs|
  {
    hide Change, SameOrder, NewReplies, ReplyOf, Replies;
    if reqs == [] {
      NoNewReplies(o);
    } else {
      var p, more := Change(o, reqs[0]), reqs[1..];
      FinalReplies(p, more);
      ChangedReplies(o, reqs[0]);
      NewRepliesSame(o, p, more);
      NewRepliesStep(o, reqs);
      SameOrderTwice(o, p, RunOne(p, more));
    }
  }

  lemma NoNewReplies(o: Order)
    ensures NewReplies(o, []) == [] && SameOrder(o, o)
  {
  }

  // ---------- What sellers can rely on ----------

  lemma {:induction false} FirstReplyFound(replies: seq<Reply>, seller: string)
    ensures FirstReply(replies, seller).Some? <==> exists r <- replies :: r.sellerId == seller
  {
    if replies != [] {
      FirstReplyFound(replies[1..], seller);
      assert replies == [replies[0]] + replies[1..];
    }
  }

  lemma {:induction false} FirstReplyKept(replies: seq<Reply>, more: seq<Reply>, seller: string)
    requires FirstReply(replies, seller).Some?
    ensures FirstReply(replies + more, seller) == FirstReply(replies, seller)
  {
    assert (replies + more)[1..] == replies[1..] + more;
    if replies[0].sellerId != seller { FirstReplyKept(replies[1..], more, seller); }
  }

  /** An order open to a seller after a run was open before it: what leaves
      the open list never returns. */
  lemma OpenNeverReturns(docs: seq<Order>, reqs: seq<Request>, i: nat, seller: string)
    requires i < |docs| && Open(Run(docs, reqs)[i], seller)
    ensures Open(docs[i], seller)
  {
    hide Run, RunOne, Without, NewReplies;
    RunAt(docs, reqs, i);
    var mine := Reaching(reqs, docs[i].orderId);
    if Run(docs, reqs)[i] != docs[i] {
      FinalStatus(docs[i], mine);
      FinalTargets(docs[i], mine);
      FinalReplies(docs[i], mine);
    }
  }

  /** The reply shown to a seller never changes once there is one, and is
      shown whenever the order is listed for that seller. */
  lemma ShownReplyNeverChanges(docs: seq<Order>, reqs: seq<Request>, i: nat, seller: string)
    requires i < |docs| && HasReplyFrom(docs[i], seller)
    ensures HasReplyFrom(Run(docs, reqs)[i], seller)
    ensures var before, after := Describe(docs[i], "seller", seller), Describe(Run(docs, reqs)[i], "seller", seller);
            before.reply.Some? && after.reply == before.reply
  {
    hide Run, RunOne, NewReplies;
    RunAt(docs, reqs, i);
    var mine := Reaching(reqs, docs[i].orderId);
    var replies := Replies(docs[i]);
    FirstReplyFound(replies, seller);
    if Run(docs, reqs)[i] != docs[i] {
      FinalReplies(docs[i], mine);
      var more := if docs[i].status == "new" then NewReplies(docs[i], mine) else [];
      FirstReplyKept(replies, more, seller);
      FirstReplyFound(replies + more, seller);
    }
  }

  // Requests of a run that change order i: none, behind an earlier order of its id.
  function ReachingAt(docs: seq<Order>, reqs: seq<Request>, i: nat): seq<Request>
    requires i < |docs|
  {
    if i == IndexOf(docs, docs[i].orderId) then Reaching(reqs, docs[i].orderId) else []
  }

  predicate Answers(reqs: seq<Request>, seller: string) {
    exists r <- reqs :: r.sellerId == seller && r.status in {"agree", "ignore", "canceled"}
  }

  lemma {:induction false} NewRepliesFrom(o: Order, reqs: seq<Request>, seller: string)
    requires !Completes(reqs)
    ensures (exists r <- NewReplies(o, reqs) :: r.sellerId == seller) <==>
            exists q <- reqs :: q.sellerId == seller && q.status == "agree"
  {
    if reqs != [] {
      var q, more := reqs[0], reqs[1..];
      assert reqs == [q] + more;
      NewRepliesFrom(o, more, seller);
      if q.status == "agree" {
        var r := ReplyOf(o, q);
        assert NewReplies(o, reqs) == [r] + NewReplies(o, more);
        assert r in NewReplies(o, reqs);
      } else {
        assert NewReplies(o, reqs) == NewReplies(o, more);
      }
    }
  }

  lemma RepliesOfBoth(a: seq<Reply>, b: seq<Reply>, seller: string)
    ensures (exists r <- a + b :: r.sellerId == seller) <==>
            (exists r <- a :: r.sellerId == seller) || (exists r <- b :: r.sellerId == seller)
  {
  }

  // One order: what the requests that reach it leave open.
  lemma OpenAfterRun(o: Order, reqs: seq<Request>, seller: string)
    ensures Open(RunOne(o, reqs), seller) <==> Open(o, seller) && !Completes(reqs) && !Answers(reqs, seller)
  {
    hide RunOne, Without, NewReplies, Completes;
    FinalStatus(o, reqs);
    FinalTargets(o, reqs);
    FinalReplies(o, reqs);
    if o.status == "new" && !Completes(reqs) {
      NewRepliesFrom(o, reqs, seller);
      RepliesOfBoth(Replies(o), NewReplies(o, reqs), seller);
      WithdrawnSays(reqs, seller);
    }
  }

  lemma WithdrawnSays(reqs: seq<Request>, seller: string)
    ensures seller in Withdrawn(reqs) <==>
            exists r <- reqs :: r.sellerId == seller && (r.status == "ignore" || r.status == "canceled")
  {
  }

  /** After every run an order is on a seller's open list if and only if it was there before, no
      request that reached it completed it, and none of that seller's agreed, ignored or canceled. */
  lemma OpenExactlyIf(docs: seq<Order>, reqs: seq<Request>, i: nat, seller: string)
    requires i < |docs|
    ensures var mine := ReachingAt(docs, reqs, i);
            Open(Run(docs, reqs)[i], seller) <==> Open(docs[i], seller) && !Completes(mine) && !Answers(mine, seller)
  {
    hide Run, RunOne, Open, Reaching;
    RunAt(docs, reqs, i);
    OpenAfterRun(docs[i], ReachingAt(docs, reqs, i), seller);
    assert RunOne(docs[i], []) == docs[i] by { RunNothing(docs[i]); }
  }

  lemma RunNothing(o: Order)
    ensures RunOne(o, []) == o
  {
  }

  /** Completed is never left, targets only shrink, replies only grow, and
      only while the order is new. */
  lemma OrdersOnlyAdvance(docs: seq<Order>, reqs: seq<Request>, i: nat)
    requires i < |docs|
    ensures var before, after := docs[i], Run(docs, reqs)[i];
            && (before.status == "completed" ==> after.status == "completed")
            && (after.status != before.status ==> after.status == "completed")
            && (forall s <- after.targets :: s in before.targets)
            && Replies(before) <= Replies(after)
            && (before.status != "new" ==> Replies(after) == Replies(before))
            && SameOrder(before, after)
  {
    hide Run, RunOne, NewReplies;
    RunAt(docs, reqs, i);
    var mine := Reaching(reqs, docs[i].orderId);
    FinalStatus(docs[i], mine);
    FinalTargets(docs[i], mine);
    FinalReplies(docs[i], mine);
  }
}
