/**
  The way of single balls back through half a day of 27 balls. A ball taken as number j, counted from 0, in an
  hour that starts with len balls in the queue is written 100 * len + j; the last spot of a trail, in the hour that
  starts with all 27, shows the place at the start and is its own predecessor.
 */
module ClockTrails {

  /** The ball as it was taken before: earlier in the same hour, or in the hour before. */
  function Before(s: int): int {
    var len, j := s / 100, s % 100;
    if j >= len then 100 * len + 5 * ((j - len) / 4) + 3 - (j - len) % 4
    else if len >= 27 then s
    else if j < len - 11 then 100 * (len + 1) + 60 + j
    else 100 * (len + 1) + 54 - 5 * (j - (len - 11))
  }

  lemma BeforeIs(len: nat, j: nat)
    requires j < 100
    ensures Before(100 * len + j) ==
      if j >= len then 100 * len + 5 * ((j - len) / 4) + 3 - (j - len) % 4
      else if len >= 27 then 100 * len + j
      else if j < len - 11 then 100 * (len + 1) + 60 + j
      else 100 * (len + 1) + 54 - 5 * (j - (len - 11))
  {
    var s := 100 * len + j;
    assert s / 100 == len && s % 100 == j;
  }

  predicate Trail(t: seq<int>) {
    t != [] && forall k :: 0 <= k < |t| - 1 ==> t[k + 1] == Before(t[k])
  }

  ghost predicate Leads(s: int, e: int) {
    exists t :: Trail(t) && t[0] == s && t[|t| - 1] == e
  }

  lemma Joined(s: int, m: int, e: int)
    requires Leads(s, m) && Leads(m, e)
    ensures Leads(s, e)
  {
    var a :| Trail(a) && a[0] == s && a[|a| - 1] == m;
    var b :| Trail(b) && b[0] == m && b[|b| - 1] == e;
    var t := a + b[1..];
    forall k | 0 <= k < |t| - 1 ensures t[k + 1] == Before(t[k]) {
      if k >= |a| - 1 {
        var i := k - (|a| - 1);
        assert t[k] == b[i] && t[k + 1] == b[i + 1];
      }
    }
    assert Trail(t) && t[0] == s && t[|t| - 1] == e;
  }

  lemma Six(a: int, b: int, c: int, d: int, e: int, f: int, g: int)
    requires b == Before(a) && c == Before(b) && d == Before(c) && e == Before(d) && f == Before(e) && g == Before(f)
    ensures Leads(a, g)
  {
    var t := [a, b, c, d, e, f, g];
    assert Trail(t) && t[0] == a && t[|t| - 1] == g;
  }

  lemma Twelve(a: int, b: int, c: int, d: int, e: int, f: int, g: int,
               h: int, i: int, j: int, k: int, l: int, m: int)
    requires b == Before(a) && c == Before(b) && d == Before(c) && e == Before(d) && f == Before(e) && g == Before(f)
    requires h == Before(g) && i == Before(h) && j == Before(i) && k == Before(j) && l == Before(k) && m == Before(l)
    ensures Leads(a, m)
  {
    Six(a, b, c, d, e, f, g);
    Six(g, h, i, j, k, l, m);
    Joined(a, g, m);
  }

  lemma TrailEnd15()
    ensures Leads(2135, 2703)
  {
    Twelve(2135, 2116, 2224, 2201, 2361, 2346, 2325, 2301, 2461, 2447, 2425, 2402, 2562);
    Twelve(2562, 2547, 2526, 2502, 2662, 2648, 2626, 2603, 2763, 2748, 2727, 2703, 2703);
    Joined(2135, 2562, 2703);
  }

  lemma Trail15()
    ensures Leads(1759, 2703)
  {
    Twelve(1759, 1751, 1741, 1733, 1723, 1706, 1854, 1848, 1836, 1821, 1800, 1960, 1952);
    Twelve(1952, 1942, 1925, 1906, 2066, 2056, 2048, 2038, 2021, 2002, 2162, 2152, 2135);
    Joined(1759, 1952, 2135);
    TrailEnd15();
    Joined(1759, 2135, 2703);
  }

  lemma TrailEnd3()
    ensures Leads(2219, 2701)
  {
    Twelve(2219, 2314, 2444, 2428, 2408, 2568, 2550, 2532, 2505, 2665, 2645, 2620, 2729);
    Twelve(2729, 2701, 2701, 2701, 2701, 2701, 2701, 2701, 2701, 2701, 2701, 2701, 2701);
    Joined(2219, 2729, 2701);
  }

  lemma Trail3()
    ensures Leads(1663, 2701)
  {
    Twelve(1663, 1655, 1645, 1637, 1627, 1610, 1729, 1718, 1702, 1862, 1858, 1853, 1840);
    Twelve(1840, 1826, 1813, 1924, 1907, 2067, 2055, 2040, 2028, 2013, 2134, 2117, 2219);
    Joined(1663, 1840, 2219);
    TrailEnd3();
    Joined(1663, 2219, 2701);
  }

  lemma TrailEnd1()
    ensures Leads(2356, 2725)
  {
    Twelve(2356, 2342, 2320, 2414, 2549, 2533, 2513, 2673, 2655, 2637, 2610, 2770, 2750);
    Twelve(2750, 2725, 2725, 2725, 2725, 2725, 2725, 2725, 2725, 2725, 2725, 2725, 2725);
    Joined(2356, 2750, 2725);
  }

  lemma Trail1()
    ensures Leads(1661, 2725)
  {
    Twelve(1661, 1657, 1652, 1648, 1643, 1630, 1616, 1603, 1763, 1756, 1745, 1738, 1727);
    Twelve(1727, 1711, 1829, 1810, 1939, 1928, 1912, 2034, 2016, 2119, 2209, 2369, 2356);
    Joined(1661, 1727, 2356);
    TrailEnd1();
    Joined(1661, 2356, 2725);
  }

  lemma Trail25()
    ensures Leads(2759, 2723)
  {
    Twelve(2759, 2743, 2723, 2723, 2723, 2723, 2723, 2723, 2723, 2723, 2723, 2723, 2723);
  }

  lemma Trail23()
    ensures Leads(2559, 2706)
  {
    Twelve(2559, 2541, 2523, 2609, 2769, 2751, 2733, 2706, 2706, 2706, 2706, 2706, 2706);
  }

  lemma TrailEnd6()
    ensures Leads(2353, 2707)
  {
    Twelve(2353, 2336, 2317, 2429, 2407, 2567, 2551, 2531, 2506, 2666, 2653, 2630, 2608);
    Twelve(2608, 2768, 2752, 2732, 2707, 2707, 2707, 2707, 2707, 2707, 2707, 2707, 2707);
    Joined(2353, 2608, 2707);
  }

  lemma Trail6()
    ensures Leads(1644, 2707)
  {
    Twelve(1644, 1638, 1626, 1611, 1724, 1705, 1865, 1855, 1847, 1837, 1820, 1801, 1961);
    Twelve(1961, 1951, 1943, 1933, 1916, 2014, 2129, 2113, 2239, 2222, 2203, 2363, 2353);
    Joined(1644, 1961, 2353);
    TrailEnd6();
    Joined(1644, 2353, 2707);
  }

  lemma TrailEnd7()
    ensures Leads(2304, 2713)
  {
    Twelve(2304, 2464, 2453, 2437, 2417, 2534, 2512, 2672, 2656, 2636, 2611, 2771, 2758);
    Twelve(2758, 2735, 2713, 2713, 2713, 2713, 2713, 2713, 2713, 2713, 2713, 2713, 2713);
    Joined(2304, 2758, 2713);
  }

  lemma Trail7()
    ensures Leads(1639, 2713)
  {
    Twelve(1639, 1625, 1612, 1719, 1701, 1861, 1850, 1843, 1832, 1816, 1909, 2049, 2037);
    Twelve(2037, 2022, 2001, 2161, 2153, 2143, 2126, 2107, 2267, 2257, 2240, 2221, 2304);
    Joined(1639, 2037, 2304);
    TrailEnd7();
    Joined(1639, 2304, 2713);
  }

  lemma TrailEnd13()
    ensures Leads(2208, 2710)
  {
    Twelve(2208, 2368, 2357, 2341, 2321, 2409, 2569, 2558, 2542, 2522, 2614, 2774, 2755);
    Twelve(2755, 2738, 2710, 2710, 2710, 2710, 2710, 2710, 2710, 2710, 2710, 2710, 2710);
    Joined(2208, 2755, 2710);
  }

  lemma Trail13()
    ensures Leads(1609, 2710)
  {
    Twelve(1609, 1734, 1722, 1707, 1849, 1835, 1822, 1808, 1949, 1936, 1922, 1900, 2060);
    Twelve(2060, 2053, 2042, 2026, 2006, 2166, 2157, 2148, 2130, 2112, 2244, 2226, 2208);
    Joined(1609, 2060, 2208);
    TrailEnd13();
    Joined(1609, 2208, 2710);
  }

  lemma TrailEnd10()
    ensures Leads(2540, 2704)
  {
    Twelve(2540, 2515, 2649, 2625, 2704, 2704, 2704, 2704, 2704, 2704, 2704, 2704, 2704);
  }

  lemma Trail10()
    ensures Leads(1624, 2704)
  {
    Twelve(1624, 1613, 1714, 1814, 1919, 1903, 2063, 2050, 2036, 2023, 2000, 2160, 2145);
    Twelve(2145, 2133, 2118, 2214, 2339, 2323, 2303, 2463, 2445, 2427, 2400, 2560, 2540);
    Joined(1624, 2145, 2540);
    TrailEnd10();
    Joined(1624, 2540, 2704);
  }

  lemma TrailEnd4()
    ensures Leads(2158, 2720)
  {
    Twelve(2158, 2147, 2131, 2111, 2249, 2230, 2213, 2344, 2327, 2308, 2468, 2458, 2441);
    Twelve(2441, 2422, 2509, 2669, 2650, 2633, 2605, 2765, 2746, 2720, 2720, 2720, 2720);
    Joined(2158, 2441, 2720);
  }

  lemma Trail4()
    ensures Leads(1654, 2720)
  {
    Twelve(1654, 1646, 1636, 1628, 1618, 1601, 1761, 1758, 1752, 1740, 1725, 1713, 1819);
    Twelve(1819, 1802, 1962, 1950, 1935, 1923, 1908, 2054, 2041, 2027, 2005, 2165, 2158);
    Joined(1654, 1819, 2158);
    TrailEnd4();
    Joined(1654, 2158, 2720);
  }

  lemma Trail20()
    ensures Leads(2259, 2726)
  {
    Twelve(2259, 2247, 2232, 2211, 2354, 2335, 2318, 2424, 2403, 2563, 2546, 2527, 2501);
    Twelve(2501, 2661, 2640, 2616, 2749, 2726, 2726, 2726, 2726, 2726, 2726, 2726, 2726);
    Joined(2259, 2501, 2726);
  }

  lemma TrailEnd14()
    ensures Leads(2306, 2708)
  {
    Twelve(2306, 2466, 2451, 2430, 2406, 2566, 2552, 2530, 2507, 2667, 2652, 2631, 2607);
    Twelve(2607, 2767, 2753, 2731, 2708, 2708, 2708, 2708, 2708, 2708, 2708, 2708, 2708);
    Joined(2306, 2607, 2708);
  }

  lemma Trail14()
    ensures Leads(1604, 2708)
  {
    Twelve(1604, 1764, 1755, 1746, 1737, 1728, 1710, 1834, 1823, 1807, 1954, 1940, 1927);
    Twelve(1927, 1913, 2029, 2012, 2139, 2121, 2103, 2263, 2252, 2236, 2216, 2329, 2306);
    Joined(1604, 1927, 2306);
    TrailEnd14();
    Joined(1604, 2306, 2708);
  }

  lemma TrailEnd8()
    ensures Leads(2261, 2705)
  {
    Twelve(2261, 2245, 2225, 2200, 2360, 2347, 2333, 2311, 2471, 2455, 2435, 2410, 2570);
    Twelve(2570, 2557, 2543, 2521, 2619, 2734, 2705, 2705, 2705, 2705, 2705, 2705, 2705);
    Joined(2261, 2570, 2705);
  }

  lemma Trail8()
    ensures Leads(1634, 2705)
  {
    Twelve(1634, 1621, 1607, 1744, 1730, 1717, 1703, 1863, 1857, 1845, 1830, 1818, 1803);
    Twelve(1803, 1963, 1958, 1945, 1931, 1918, 2004, 2164, 2150, 2137, 2123, 2101, 2261);
    Joined(1634, 1803, 2261);
    TrailEnd8();
    Joined(1634, 2261, 2705);
  }

  lemma TrailEnd5()
    ensures Leads(2420, 2715)
  {
    Twelve(2420, 2519, 2629, 2600, 2760, 2742, 2715, 2715, 2715, 2715, 2715, 2715, 2715);
  }

  lemma Trail5()
    ensures Leads(1649, 2715)
  {
    Twelve(1649, 1642, 1631, 1615, 1704, 1864, 1856, 1846, 1838, 1828, 1811, 1934, 1915);
    Twelve(1915, 2019, 2104, 2264, 2251, 2237, 2215, 2334, 2310, 2470, 2456, 2443, 2420);
    Joined(1649, 1915, 2420);
    TrailEnd5();
    Joined(1649, 2420, 2715);
  }

  lemma TrailEnd16()
    ensures Leads(2328, 2722)
  {
    Twelve(2328, 2307, 2467, 2450, 2431, 2405, 2565, 2553, 2538, 2517, 2639, 2617, 2744);
    Twelve(2744, 2722, 2722, 2722, 2722, 2722, 2722, 2722, 2722, 2722, 2722, 2722, 2722);
    Joined(2328, 2744, 2722);
  }

  lemma Trail16()
    ensures Leads(1859, 2722)
  {
    Twelve(1859, 1852, 1841, 1825, 1805, 1965, 1956, 1947, 1938, 1920, 1902, 2062, 2051);
    Twelve(2051, 2035, 2015, 2124, 2100, 2260, 2246, 2233, 2210, 2370, 2355, 2343, 2328);
    Joined(1859, 2051, 2328);
    TrailEnd16();
    Joined(1859, 2328, 2722);
  }

  lemma Trail22()
    ensures Leads(2459, 2716)
  {
    Twelve(2459, 2440, 2423, 2504, 2664, 2646, 2628, 2601, 2761, 2741, 2716, 2716, 2716);
  }
}
