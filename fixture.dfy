/**
 * The sample menu the host application ships, and scenarios over it: the
 * navigation walk, two drag releases and the keyboard shortcuts.
 */
module Fixture {
  import opened Menu
  import Navigation
  import opened Gesture
  import Drawer
  import Content

  function Leaf(id: string, caption: string, icon: string, subtitle: string): MenuNode
  {
    MenuNode(id, caption, Some(subtitle), Some(icon), Listed([]))
  }

  function DataAnalytics(): MenuNode
  {
    MenuNode("data-analytics", "Data & Analytics Consulting", Some("Data strategy, analytics, and business intelligence"),
      Some("bar-chart"), Listed([
        Leaf("data-strategy", "Data Strategy", "target", "Data governance and strategy development"),
        Leaf("advanced-analytics", "Advanced Analytics", "lightbulb", "Machine learning and predictive analytics"),
        Leaf("business-intelligence", "Business Intelligence", "bar-chart", "BI platform implementation and optimization")]))
  }

  function ProductsServices(): MenuNode
  {
    MenuNode("products-services", "Products & Services", Some("Explore our comprehensive offerings"),
      Some("box"), Listed([
        Leaf("software-solutions", "Software Solutions", "code", "Custom software development and deployment"),
        Leaf("cloud-infrastructure", "Cloud & Infrastructure", "cloud", "Scalable cloud solutions and infrastructure"),
        Leaf("consulting-services", "Consulting Services", "people", "Expert guidance and strategic support"),
        Leaf("digital-transformation", "Digital Transformation", "lightbulb", "Comprehensive digital transformation strategies"),
        Leaf("cybersecurity", "Cybersecurity Consulting", "shield", "Comprehensive cybersecurity services and solutions"),
        DataAnalytics(),
        Leaf("devops", "DevOps & Platform Engineering", "gear", "DevOps transformation and platform engineering"),
        Leaf("support-maintenance", "Support & Maintenance", "gear", "Ongoing maintenance and support services")]))
  }

  /** The root of the sample menu: no icon, no subtitle, ten top-level items. */
  function SampleMenuData(): MenuNode
  {
    MenuNode("root", "Main Menu", None, None, Listed([
      Leaf("home", "Home", "home", "Welcome to our comprehensive platform"),
      ProductsServices(),
      Leaf("industry-solutions", "Industry Solutions", "document", "Specialized solutions for different industries"),
      Leaf("company", "Company", "people", "Learn about our organization and culture"),
      Leaf("resources", "Resources", "book", "Knowledge base, tools, and learning materials"),
      Leaf("support", "Support", "question", "Get help and support when you need it"),
      Leaf("research-innovation", "Research & Innovation", "lightbulb", "Cutting-edge research and innovation initiatives"),
      Leaf("sustainability", "Sustainability", "leaf", "Environmental responsibility and sustainable technology"),
      Leaf("investor-relations", "Investor Relations", "chart", "Financial information and investor resources"),
      Leaf("contact", "Contact", "envelope", "Get in touch with our team")]))
  }

  /** Root, then "Products & Services": history 1, eight items, still reachable. */
  lemma EnterProducts()
    ensures var root := SampleMenuData();
            var s1 := Navigation.Navigate(Navigation.AtRoot(root), ProductsServices());
            && s1.history == [root] && s1.current.id == "products-services" && |Items(s1.current)| == 8
            && Navigation.Reachable(root, s1)
  {
    var root := SampleMenuData();
    Navigation.AtRootReachable(root);
    assert Items(root)[1] == ProductsServices();
    Navigation.NavigateReachable(root, Navigation.AtRoot(root), ProductsServices());
  }

  /** Then "Data & Analytics Consulting": history 2, three items, still reachable. */
  lemma EnterDataAnalytics()
    ensures var root := SampleMenuData();
            var s1 := Navigation.Navigate(Navigation.AtRoot(root), ProductsServices());
            var s2 := Navigation.Navigate(s1, DataAnalytics());
            && s2.history == [root, s1.current] && s2.current.id == "data-analytics" && |Items(s2.current)| == 3
            && Navigation.Reachable(root, s2)
  {
    var root := SampleMenuData();
    var s1 := Navigation.Navigate(Navigation.AtRoot(root), ProductsServices());
    EnterProducts();
    assert Items(s1.current)[5] == DataAnalytics();
    Navigation.NavigateReachable(root, s1, DataAnalytics());
  }

  /**
   * Root, then "Products & Services" (8 items), then "Data & Analytics
   * Consulting" (3 items), then back once.
   */
  lemma NavigationWalk()
    ensures var root := SampleMenuData();
            var s1 := Navigation.Navigate(Navigation.AtRoot(root), ProductsServices());
            var s2 := Navigation.Navigate(s1, DataAnalytics());
            && |s2.history| == 2 && |Items(s2.current)| == 3 && Navigation.Reachable(root, s2)
            && Navigation.Back(s2) == s1 && |Navigation.Back(s2).history| == 1
  {
    var s1 := Navigation.Navigate(Navigation.AtRoot(SampleMenuData()), ProductsServices());
    EnterProducts();
    EnterDataAnalytics();
    Navigation.BackUndoesNavigate(s1, DataAnalytics());
  }

  /** A leaf such as "Home" does not navigate. */
  lemma LeafDoesNotNavigate()
    ensures var s := Navigation.AtRoot(SampleMenuData());
            Navigation.Navigate(s, Items(SampleMenuData())[0]) == s
  {
  }

  /** Height 400: a 150 drag closes (threshold 120), a 50 drag snaps back. */
  lemma DragScenarios()
    ensures Release(Track(Start(Idle, Touch(100)), [180, 250]), 400) == (Idle, true)
    ensures Release(Track(Start(Idle, Touch(100)), [150]), 400) == (Idle, false)
    ensures Release(Track(Start(Idle, Touch(100)), [40]), 0) == (Idle, false)
  {
    WholeGesture(Idle, Touch(100), [180, 250], 400);
    WholeGesture(Idle, Touch(100), [150], 400);
    WholeGesture(Idle, Touch(100), [40], 0);
  }

  /** The open drawer at depth 2: Backspace in an input is ignored, elsewhere it goes back one level. */
  method DrawerSession()
  {
    var root := SampleMenuData();
    var d := new Drawer.MenuDrawer(root, true);
    d.Navigate(ProductsServices());
    d.Navigate(DataAnalytics());
    assert |d.history| == 2;
    var close := d.KeyDown("Backspace", "INPUT");
    assert !close && |d.history| == 2;
    close := d.KeyDown("Backspace", "BUTTON");
    assert !close && |d.history| == 1 && d.current.id == "products-services";
  }

  /** Escape at depth 2 requests the close; closing resets to the root and Escape is then ignored. */
  method CloseSession()
  {
    var root := SampleMenuData();
    var d := new Drawer.MenuDrawer(root, true);
    d.Navigate(ProductsServices());
    d.Navigate(DataAnalytics());
    var close := d.KeyDown("Escape", "BUTTON");
    assert close && |d.history| == 2;
    d.SetProps(false, root);
    assert d.current == root && d.history == [] && !d.scrollLocked;
    close := d.KeyDown("Escape", "BUTTON");
    assert !close;
  }

  /** Whatever happened before the drawer closed, reopening it shows the root with no history. */
  method Reopen(d: Drawer.MenuDrawer)
    requires d.Valid() && !d.isOpen
    modifies d
    ensures d.Valid() && d.isOpen
    ensures d.Nav() == Navigation.AtRoot(d.root)
  {
    d.SetProps(true, d.root);
  }

  /** A touch drag on a 400-high drawer: 50 down snaps back, 150 down closes. */
  method DragSession()
  {
    var d := new Drawer.MenuDrawer(SampleMenuData(), true);
    d.PointerDown(Touch(300));
    d.PointerMove(350);
    var close := d.PointerUp(400);
    assert !close && d.drag == Idle && d.style == Drawer.Resting;
    d.PointerDown(Mouse(2, 300));
    d.PointerMove(500);
    close := d.PointerUp(400);
    assert !close && d.drag == Idle;
    d.PointerDown(Touch(300));
    d.PointerMove(200);
    assert d.drag.dragDistance == 0;
    d.PointerMove(450);
    close := d.PointerUp(400);
    assert close && d.drag == Idle;
  }

  /** Going back from depth 2 to depth 1 still slides left; back to the root slides right. */
  method AnimationSession()
  {
    var a := new Content.SlideAnimator();
    var root := SampleMenuData();
    a.Commit(Some(root), 0);
    assert a.previousId == Some("root") && a.classes == {};
    a.Commit(Some(ProductsServices()), 1);
    assert a.classes == {Content.SlideLeft};
    a.Complete();
    assert a.classes == {} && a.previousId == Some("products-services");
    a.Commit(Some(DataAnalytics()), 2);
    a.Complete();
    a.Commit(Some(ProductsServices()), 1);
    assert a.classes == {Content.SlideLeft};
    a.Commit(Some(root), 0);
    assert a.classes == {Content.SlideLeft, Content.SlideRight} && a.pending == Content.Scheduled(Some("root"));
    a.Unmount();
    a.Complete();
    assert a.classes == {Content.SlideLeft, Content.SlideRight};
  }
}
