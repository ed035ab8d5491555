/**
 * lib/templates/index.js: the static catalogue of Mermaid templates, keyed by
 * category in the object's key order, and the lookups over it. Key order is
 * the insertion order, since no category key looks like an array index.
 */
module TemplateCatalogue {
  import opened Wrappers
  import opened Text
  import opened InsertionMap

  datatype Template = Template(id: string, name: string, icon: string, description: string, tags: seq<string>, code: string)

  /** The `templates` object: category key to its list of templates. */
  type Catalogue = seq<Entry<string, seq<Template>>>

  /** `templates`: nine categories, sixteen templates. */
  const Templates: Catalogue := [
    Entry("flowchart", [
      Template("basic-flow", "基础流程图", "📊", "简单的判断流程",
        ["基础", "判断", "流程"],
        "graph TD\n    A[开始] --> B{判断条件}\n    B -->|条件1| C[操作1]\n    B -->|条件2| D[操作2]\n    C --> E[结束]\n    D --> E"),
      Template("complex-flow", "复杂流程图", "🔀", "包含多个判断和循环的流程",
        ["复杂", "循环", "多分支"],
        "graph TB\n    Start([开始]) --> Input[/输入数据/]\n    Input --> Process[处理数据]\n    Process --> Decision{数据有效?}\n    Decision -->|是| Save[(保存到数据库)]\n    Decision -->|否| Error[显示错误]\n    Save --> Next{继续处理?}\n    Next -->|是| Input\n    Next -->|否| End([结束])\n    Error --> End"),
      Template("swimlane-flow", "泳道流程图", "🏊", "多角色协作流程",
        ["协作", "角色", "泳道"],
        "graph TD\n    subgraph 用户\n        A[提交申请] --> B[等待审批]\n    end\n    subgraph 管理员\n        C[接收申请] --> D{审核}\n        D -->|批准| E[发送通知]\n        D -->|拒绝| F[返回修改]\n    end\n    subgraph 系统\n        G[记录日志] --> H[更新状态]\n    end\n    A --> C\n    E --> B\n    F --> B\n    D --> G\n    E --> H")
    ]),
    Entry("sequence", [
      Template("basic-seq", "基础时序图", "📝", "简单的请求响应",
        ["基础", "请求", "响应"],
        "sequenceDiagram\n    participant U as 用户\n    participant S as 服务器\n    participant D as 数据库\n    \n    U->>S: 发送请求\n    S->>D: 查询数据\n    D-->>S: 返回结果\n    S-->>U: 返回响应"),
      Template("auth-seq", "认证流程", "🔐", "用户登录认证流程",
        ["认证", "登录", "安全"],
        "sequenceDiagram\n    participant U as 用户\n    participant C as 客户端\n    participant S as 认证服务器\n    participant R as 资源服务器\n    \n    U->>C: 输入用户名密码\n    C->>S: 发送认证请求\n    alt 认证成功\n        S-->>C: 返回Token\n        C->>R: 携带Token请求资源\n        R-->>C: 返回资源\n        C-->>U: 显示内容\n    else 认证失败\n        S-->>C: 返回错误\n        C-->>U: 显示错误信息\n    end"),
      Template("async-seq", "异步调用", "⚡", "异步消息处理流程",
        ["异步", "消息队列", "并发"],
        "sequenceDiagram\n    participant C as 客户端\n    participant S as 服务器\n    participant Q as 消息队列\n    participant W as 工作进程\n    \n    C->>S: 提交任务\n    S->>Q: 推送任务到队列\n    S-->>C: 返回任务ID\n    \n    Note over Q,W: 异步处理\n    \n    Q->>W: 分配任务\n    W->>W: 处理任务\n    W->>S: 更新任务状态\n    \n    C->>S: 查询任务状态\n    S-->>C: 返回处理结果")
    ]),
    Entry("classDiagram", [
      Template("basic-class", "基础类图", "📦", "简单的继承关系",
        ["基础", "继承", "OOP"],
        "classDiagram\n    class Animal {\n        +String name\n        +int age\n        +eat() void\n        +sleep() void\n    }\n    \n    class Dog {\n        +String breed\n        +bark() void\n    }\n    \n    class Cat {\n        +String color\n        +meow() void\n    }\n    \n    Animal <|-- Dog\n    Animal <|-- Cat"),
      Template("design-pattern", "设计模式", "🎨", "观察者模式示例",
        ["设计模式", "观察者", "高级"],
        "classDiagram\n    class Subject {\n        <<interface>>\n        +attach(Observer)\n        +detach(Observer)\n        +notify()\n    }\n    \n    class ConcreteSubject {\n        -state: String\n        -observers: List~Observer~\n        +getState() String\n        +setState(String)\n    }\n    \n    class Observer {\n        <<interface>>\n        +update()\n    }\n    \n    class ConcreteObserver {\n        -subject: Subject\n        -observerState: String\n        +update()\n    }\n    \n    Subject <|.. ConcreteSubject\n    Observer <|.. ConcreteObserver\n    ConcreteSubject o-- Observer : notifies\n    ConcreteObserver --> ConcreteSubject : observes"),
      Template("mvc-pattern", "MVC架构", "🏗️", "MVC设计模式",
        ["MVC", "架构", "Web"],
        "classDiagram\n    class Model {\n        -data: Object\n        +getData() Object\n        +setData(Object)\n        +validate() boolean\n    }\n    \n    class View {\n        -template: String\n        +render(Model)\n        +display()\n    }\n    \n    class Controller {\n        -model: Model\n        -view: View\n        +handleRequest()\n        +updateModel()\n        +updateView()\n    }\n    \n    Controller --> Model : updates\n    Controller --> View : updates\n    View --> Model : reads\n    \n    class User {\n        +interact()\n    }\n    \n    User --> Controller : uses")
    ]),
    Entry("stateDiagram", [
      Template("basic-state", "基础状态图", "🔄", "简单状态转换",
        ["基础", "状态", "转换"],
        "stateDiagram-v2\n    [*] --> 空闲\n    空闲 --> 工作中 : 开始工作\n    工作中 --> 暂停 : 暂停\n    暂停 --> 工作中 : 继续\n    工作中 --> 完成 : 完成工作\n    完成 --> [*]"),
      Template("order-state", "订单状态", "📋", "电商订单状态流转",
        ["电商", "订单", "业务"],
        "stateDiagram-v2\n    [*] --> 待支付\n    待支付 --> 已支付 : 支付成功\n    待支付 --> 已取消 : 取消订单\n    待支付 --> 已取消 : 支付超时\n    \n    已支付 --> 待发货 : 确认订单\n    待发货 --> 已发货 : 发货\n    已发货 --> 已签收 : 确认收货\n    已签收 --> 已完成 : 评价\n    \n    已签收 --> 退货中 : 申请退货\n    退货中 --> 已退货 : 退货成功\n    退货中 --> 已签收 : 退货失败\n    \n    已取消 --> [*]\n    已完成 --> [*]\n    已退货 --> [*]")
    ]),
    Entry("gantt", [
      Template("project-gantt", "项目甘特图", "📅", "项目进度计划",
        ["项目", "计划", "进度"],
        "gantt\n    title 项目开发计划\n    dateFormat YYYY-MM-DD\n    section 需求分析\n    需求调研           :a1, 2024-01-01, 7d\n    需求文档编写       :a2, after a1, 5d\n    需求评审           :a3, after a2, 2d\n    \n    section 设计\n    概要设计           :b1, after a3, 5d\n    详细设计           :b2, after b1, 7d\n    设计评审           :b3, after b2, 2d\n    \n    section 开发\n    前端开发           :c1, after b3, 15d\n    后端开发           :c2, after b3, 15d\n    接口联调           :c3, after c1, 5d\n    \n    section 测试\n    单元测试           :d1, after c2, 5d\n    集成测试           :d2, after c3, 5d\n    用户测试           :d3, after d2, 3d\n    \n    section 部署\n    部署准备           :e1, after d3, 2d\n    生产部署           :e2, after e1, 1d\n    监控调优           :e3, after e2, 3d")
    ]),
    Entry("pie", [
      Template("basic-pie", "饼图", "🥧", "数据分布图",
        ["统计", "分布", "占比"],
        "pie title 技术栈使用占比\n    \"JavaScript\" : 35\n    \"Python\" : 25\n    \"Java\" : 20\n    \"Go\" : 10\n    \"其他\" : 10")
    ]),
    Entry("erDiagram", [
      Template("basic-er", "ER图", "🗄️", "数据库实体关系",
        ["数据库", "ER", "关系"],
        "erDiagram\n    USER ||--o{ ORDER : places\n    ORDER ||--|{ ORDER_ITEM : contains\n    PRODUCT ||--o{ ORDER_ITEM : \"ordered in\"\n    \n    USER {\n        int id PK\n        string username\n        string email\n        datetime created_at\n    }\n    \n    ORDER {\n        int id PK\n        int user_id FK\n        datetime order_date\n        string status\n        decimal total_amount\n    }\n    \n    ORDER_ITEM {\n        int id PK\n        int order_id FK\n        int product_id FK\n        int quantity\n        decimal price\n    }\n    \n    PRODUCT {\n        int id PK\n        string name\n        string description\n        decimal price\n        int stock_quantity\n    }")
    ]),
    Entry("journey", [
      Template("user-journey", "用户旅程", "🚶", "用户体验流程",
        ["用户体验", "UX", "旅程"],
        "journey\n    title 用户购物旅程\n    section 发现阶段\n      浏览首页: 5: 用户\n      搜索商品: 4: 用户\n      查看推荐: 5: 用户\n    section 评估阶段\n      查看详情: 4: 用户\n      阅读评价: 3: 用户\n      比较价格: 3: 用户\n    section 购买阶段\n      加入购物车: 5: 用户\n      填写地址: 3: 用户\n      支付订单: 4: 用户\n    section 售后阶段\n      收到商品: 5: 用户\n      确认收货: 5: 用户\n      评价商品: 4: 用户")
    ]),
    Entry("gitGraph", [
      Template("git-flow", "Git流程", "🌿", "Git分支管理",
        ["Git", "版本控制", "分支"],
        "gitGraph\n    commit\n    commit\n    branch develop\n    checkout develop\n    commit\n    commit\n    checkout main\n    merge develop\n    commit\n    branch feature\n    checkout feature\n    commit\n    commit\n    checkout develop\n    merge feature\n    checkout main\n    merge develop\n    commit")
    ])
  ]

  /** The `names` object of `getCategoryName`. */
  const CategoryNames: seq<Entry<string, string>> := [
    Entry("flowchart", "流程图"), Entry("sequence", "时序图"), Entry("classDiagram", "类图"),
    Entry("stateDiagram", "状态图"), Entry("gantt", "甘特图"), Entry("pie", "饼图"),
    Entry("erDiagram", "ER图"), Entry("journey", "用户旅程"), Entry("gitGraph", "Git图")]

  /** The `icons` object of `getCategoryIcon`. */
  const CategoryIcons: seq<Entry<string, string>> := [
    Entry("flowchart", "📊"), Entry("sequence", "📝"), Entry("classDiagram", "📦"),
    Entry("stateDiagram", "🔄"), Entry("gantt", "📅"), Entry("pie", "🥧"),
    Entry("erDiagram", "🗄️"), Entry("journey", "🚶"), Entry("gitGraph", "🌿")]

  /** `table[key] || fallback`. */
  function LookupOr(table: seq<Entry<string, string>>, key: string, fallback: string): (r: string)
    ensures (Get(table, key).Some? && Get(table, key).value != "") ==> r == Get(table, key).value
    ensures (Get(table, key).None? || Get(table, key).value == "") ==> r == fallback
  {
    match Get(table, key)
    case Some(v) => if v != "" then v else fallback
    case None => fallback
  }

  /** `getCategoryName(category)`: the display name, or the key itself for an unknown category. */
  function CategoryName(category: string): string {
    LookupOr(CategoryNames, category, category)
  }

  /** `getCategoryIcon(category)`: the icon, or 📊 for an unknown category. */
  function CategoryIcon(category: string): string {
    LookupOr(CategoryIcons, category, "📊")
  }

  /** Every category of the catalogue has a name and an icon of its own. */
  lemma KnownCategories()
    ensures Keys(Templates) == Keys(CategoryNames) == Keys(CategoryIcons)
    ensures forall i :: 0 <= i < |CategoryNames| ==> CategoryNames[i].value != ""
    ensures forall i :: 0 <= i < |CategoryIcons| ==> CategoryIcons[i].value != ""
  {
  }

  /** An unknown category is named by its own key and shown with the default icon. */
  lemma UnknownCategoryFallbacks(category: string)
    requires !Has(CategoryNames, category)
    ensures CategoryName(category) == category && CategoryIcon(category) == "📊"
  {
    assert Keys(CategoryIcons) == Keys(CategoryNames);
  }

  /** A known category gets the name listed for it. */
  lemma KnownCategoryName(i: nat)
    requires i < |CategoryNames|
    ensures CategoryName(CategoryNames[i].key) == CategoryNames[i].value
  {
    KnownCategories();
    assert UniqueKeys(CategoryNames);
    GetAt(CategoryNames, i);
  }

  datatype CategoryInfo = CategoryInfo(id: string, name: string, icon: string, count: nat)

  /** `getTemplateCategories()`: one entry per category key, in key order. */
  function TemplateCategories(cat: Catalogue): (r: seq<CategoryInfo>)
    ensures |r| == |cat|
    ensures forall i :: 0 <= i < |r| ==> r[i].id == cat[i].key && r[i].count == |cat[i].value|
    ensures forall i :: 0 <= i < |r| ==> r[i].name == CategoryName(r[i].id) && r[i].icon == CategoryIcon(r[i].id)
  {
    seq(|cat|, i requires 0 <= i < |cat| =>
      CategoryInfo(cat[i].key, CategoryName(cat[i].key), CategoryIcon(cat[i].key), |cat[i].value|))
  }

  /** The counts over the catalogue add up to the number of templates. */
  function TemplateCount(cat: Catalogue): nat
    decreases |cat|
  {
    if cat == [] then 0 else |cat[0].value| + TemplateCount(cat[1..])
  }

  function CountSum(infos: seq<CategoryInfo>): nat
    decreases |infos|
  {
    if infos == [] then 0 else infos[0].count + CountSum(infos[1..])
  }

  lemma {:induction false} CategoryCountsSum(cat: Catalogue)
    ensures CountSum(TemplateCategories(cat)) == TemplateCount(cat)
    decreases |cat|
  {
    if cat != [] {
      CategoryCountsSum(cat[1..]);
      assert TemplateCategories(cat)[1..] == TemplateCategories(cat[1..]);
    }
  }

  /** A search hit: the template together with its `category` key and `categoryName`. */
  datatype SearchResult = SearchResult(template: Template, category: string, categoryName: string)

  /** Some tag contains the lowercased query. */
  predicate SomeTagContains(tags: seq<string>, lowerQuery: string) {
    exists i :: 0 <= i < |tags| && Contains(Lower(tags[i]), lowerQuery)
  }

  /** The condition of `searchTemplates` on one template. */
  predicate TemplateMatches(t: Template, lowerQuery: string) {
    || Contains(Lower(t.name), lowerQuery)
    || Contains(Lower(t.description), lowerQuery)
    || SomeTagContains(t.tags, lowerQuery)
  }

  /** The templates of one category, tagged with the category. */
  function Tagged(category: string, ts: seq<Template>): (r: seq<SearchResult>)
    ensures |r| == |ts|
    ensures forall j :: 0 <= j < |r| ==> r[j] == SearchResult(ts[j], category, CategoryName(category))
  {
    seq(|ts|, j requires 0 <= j < |ts| => SearchResult(ts[j], category, CategoryName(category)))
  }

  /** Every template of the catalogue, category by category in key order, then in list order. */
  function Flatten(cat: Catalogue): (r: seq<SearchResult>)
    ensures |r| == TemplateCount(cat)
    decreases |cat|
  {
    if cat == [] then [] else Tagged(cat[0].key, cat[0].value) + Flatten(cat[1..])
  }

  /** The hits among `rs`, in order. */
  function FilterMatches(rs: seq<SearchResult>, lowerQuery: string): (r: seq<SearchResult>)
    ensures |r| <= |rs|
    ensures forall x :: x in r <==> x in rs && TemplateMatches(x.template, lowerQuery)
    decreases |rs|
  {
    if rs == [] then []
    else
      assert rs == [rs[0]] + rs[1..];
      var rest := FilterMatches(rs[1..], lowerQuery);
      if TemplateMatches(rs[0].template, lowerQuery) then [rs[0]] + rest else rest
  }

  /** `searchTemplates(query)` over a catalogue: nothing for an empty query. */
  function SearchIn(cat: Catalogue, query: string): seq<SearchResult> {
    if query == "" then [] else FilterMatches(Flatten(cat), Lower(query))
  }

  /** `searchTemplates(query)`. */
  function SearchTemplates(query: string): seq<SearchResult> {
    SearchIn(Templates, query)
  }

  /** `x` is one of the templates of the category entry `e`, tagged with its key and name. */
  predicate ListedUnder(e: Entry<string, seq<Template>>, x: SearchResult) {
    x.category == e.key && x.template in e.value && x.categoryName == CategoryName(e.key)
  }

  lemma TaggedMembers(e: Entry<string, seq<Template>>, x: SearchResult)
    ensures x in Tagged(e.key, e.value) <==> ListedUnder(e, x)
  {
    if ListedUnder(e, x) {
      var j :| 0 <= j < |e.value| && e.value[j] == x.template;
      assert Tagged(e.key, e.value)[j] == x;
    }
  }

  /** What `Flatten` lists: exactly the templates of the catalogue, each with its own category key and name. */
  lemma {:induction false} FlattenMembers(cat: Catalogue, x: SearchResult)
    ensures x in Flatten(cat) <==> exists i :: 0 <= i < |cat| && ListedUnder(cat[i], x)
    decreases |cat|
  {
    if cat != [] {
      FlattenMembers(cat[1..], x);
      TaggedMembers(cat[0], x);
      assert Flatten(cat) == Tagged(cat[0].key, cat[0].value) + Flatten(cat[1..]);
      if x in Flatten(cat[1..]) {
        var i :| 0 <= i < |cat[1..]| && ListedUnder(cat[1..][i], x);
        assert cat[i + 1] == cat[1..][i];
      }
      if exists i :: 1 <= i < |cat| && ListedUnder(cat[i], x) {
        var i :| 1 <= i < |cat| && ListedUnder(cat[i], x);
        assert cat[1..][i - 1] == cat[i];
      }
    }
  }

  lemma {:induction false} FlattenAppend(a: Catalogue, b: Catalogue)
    ensures Flatten(a + b) == Flatten(a) + Flatten(b)
    decreases |a|
  {
    if a == [] {
      assert a + b == b;
    } else {
      assert (a + b)[0] == a[0] && (a + b)[1..] == a[1..] + b;
      FlattenAppend(a[1..], b);
    }
  }

  lemma {:induction false} FilterAppend(a: seq<SearchResult>, b: seq<SearchResult>, lowerQuery: string)
    ensures FilterMatches(a + b, lowerQuery) == FilterMatches(a, lowerQuery) + FilterMatches(b, lowerQuery)
    decreases |a|
  {
    if a == [] {
      assert a + b == b;
    } else {
      assert (a + b)[0] == a[0] && (a + b)[1..] == a[1..] + b;
      FilterAppend(a[1..], b, lowerQuery);
    }
  }

  /**
   * `searchTemplates` returns, for a non-empty query, exactly the templates
   * whose name, description or some tag contains the lowercased query, each
   * with its category key and that category's name; for an empty query it
   * returns nothing.
   */
  lemma SearchMembers(cat: Catalogue, query: string, x: SearchResult)
    ensures query == "" ==> SearchIn(cat, query) == []
    ensures query != "" ==>
              (x in SearchIn(cat, query) <==>
               TemplateMatches(x.template, Lower(query))
               && exists i :: 0 <= i < |cat| && ListedUnder(cat[i], x))
  {
    FlattenMembers(cat, x);
  }

  /**
   * The hits follow category order: searching a catalogue split at a
   * category boundary gives the hits of the first part, then those of the
   * second.
   */
  lemma SearchFollowsCategoryOrder(a: Catalogue, b: Catalogue, query: string)
    ensures SearchIn(a + b, query) == SearchIn(a, query) + SearchIn(b, query)
  {
    if query != "" {
      FlattenAppend(a, b);
      FilterAppend(Flatten(a), Flatten(b), Lower(query));
    }
  }

  /** Within one category the hits keep the template order: they are its matching templates, filtered in place. */
  lemma SearchOneCategory(key: string, ts: seq<Template>, query: string)
    requires query != ""
    ensures SearchIn([Entry(key, ts)], query) == FilterMatches(Tagged(key, ts), Lower(query))
  {
    assert [Entry(key, ts)][1..] == [];
    assert Flatten([Entry(key, ts)]) == Tagged(key, ts) + [];
    assert Tagged(key, ts) + [] == Tagged(key, ts);
  }

  /** `Array.prototype.find` by id: the first template with that id. */
  function FindById(ts: seq<Template>, id: string): (r: Option<Template>)
    ensures r.Some? ==> r.value in ts && r.value.id == id
    ensures r.None? <==> forall j :: 0 <= j < |ts| ==> ts[j].id != id
    decreases |ts|
  {
    if ts == [] then None
    else if ts[0].id == id then Some(ts[0])
    else
      var r := FindById(ts[1..], id);
      assert forall j :: 1 <= j < |ts| ==> ts[j] == ts[1..][j - 1];
      r
  }

  /** `FindById` returns the first match: every template before it has another id. */
  lemma {:induction false} FindByIdFirst(ts: seq<Template>, id: string)
    requires FindById(ts, id).Some?
    ensures exists k :: 0 <= k < |ts| && ts[k] == FindById(ts, id).value
                        && forall j :: 0 <= j < k ==> ts[j].id != id
    decreases |ts|
  {
    if ts[0].id != id {
      FindByIdFirst(ts[1..], id);
      var k :| 0 <= k < |ts[1..]| && ts[1..][k] == FindById(ts, id).value
               && forall j :: 0 <= j < k ==> ts[1..][j].id != id;
      assert ts[k + 1] == ts[1..][k];
      forall j | 0 <= j < k + 1
        ensures ts[j].id != id
      {
        if j > 0 {
          assert ts[j] == ts[1..][j - 1];
        }
      }
    }
  }

  /** The outcome of `getTemplate`: `null`, `undefined`, or the template. */
  datatype Lookup = NoCategory | NotFound | Found(template: Template)

  /** `getTemplate(category, id)` over a catalogue. */
  function GetTemplateIn(cat: Catalogue, category: string, id: string): (r: Lookup)
    ensures r.NoCategory? <==> !Has(cat, category)
    ensures r.Found? ==> r.template.id == id && r.template in Get(cat, category).value
    ensures r.NotFound? ==> forall t :: t in Get(cat, category).value ==> t.id != id
  {
    match Get(cat, category)
    case None => NoCategory
    case Some(ts) =>
      match FindById(ts, id)
      case Some(t) => Found(t)
      case None => NotFound
  }

  /** `getTemplate(category, id)`. */
  function GetTemplate(category: string, id: string): Lookup {
    GetTemplateIn(Templates, category, id)
  }

  /** Every template of a category is found under that category's key. */
  lemma GetTemplateOfMember(cat: Catalogue, i: nat, t: Template)
    requires UniqueKeys(cat) && i < |cat| && t in cat[i].value
    ensures GetTemplateIn(cat, cat[i].key, t.id).Found?
  {
    GetAt(cat, i);
  }

  /** Three templates each for flowcharts, sequences and class diagrams, two state diagrams, one of each other kind. */
  lemma CategorySizes()
    ensures |Templates| == 9
    ensures |Templates[0].value| == 3 && |Templates[1].value| == 3 && |Templates[2].value| == 3
    ensures |Templates[3].value| == 2
    ensures forall i :: 4 <= i < 9 ==> |Templates[i].value| == 1
  {
  }

  lemma {:induction false} TemplateCountSuffix(c: Catalogue, i: nat)
    requires 0 < i <= |c|
    ensures TemplateCount(c[i - 1..]) == |c[i - 1].value| + TemplateCount(c[i..])
  {
    assert c[i - 1..][1..] == c[i..];
  }

  /** The catalogue holds sixteen templates. */
  lemma CatalogueSize()
    ensures TemplateCount(Templates) == 16
  {
    var c := Templates;
    CategorySizes();
    assert c[9..] == [];
    TemplateCountSuffix(c, 9);
    TemplateCountSuffix(c, 8);
    TemplateCountSuffix(c, 7);
    TemplateCountSuffix(c, 6);
    TemplateCountSuffix(c, 5);
    TemplateCountSuffix(c, 4);
    TemplateCountSuffix(c, 3);
    TemplateCountSuffix(c, 2);
    TemplateCountSuffix(c, 1);
    assert c[0..] == c;
  }
}
