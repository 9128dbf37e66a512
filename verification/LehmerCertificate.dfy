/**
 * Powers of 16807 modulo 2^31 - 1 at (M - 1) / p for every prime p that divides M - 1, each by an
 * addition chain.  M - 1 = 2 * 3^2 * 7 * 11 * 31 * 151 * 331.
 */
module LehmerCertificate {
  import opened Lehmer
  import opened LehmerPeriod

  /** One link of a chain. */
  lemma Product(a: nat, v: nat, b: nat, w: nat, x: nat)
    requires Power(a) == v && Power(b) == w && v * w % M == x
    ensures Power(a + b) == x
  {
    hide Power;
    PowerSum(a, b);
  }

  lemma Power1()
    ensures Power(1) == A
  {
  }

  lemma Power126()
    ensures Power(126) == 1524325968
  {
    hide Power;
    Power1();
    Product(1, 16807, 1, 16807, 282475249);
    Product(2, 282475249, 2, 282475249, 984943658);
    Product(4, 984943658, 4, 984943658, 1457850878);
    Product(8, 1457850878, 8, 1457850878, 1137522503);
    Product(16, 1137522503, 16, 1137522503, 1636807826);
    Product(8, 1457850878, 32, 1636807826, 784558821);
    Product(2, 282475249, 40, 784558821, 2110010672);
    Product(42, 2110010672, 42, 2110010672, 1478446501);
    Product(42, 2110010672, 84, 1478446501, 1524325968);
  }

  lemma Power341()
    ensures Power(341) == 1442645480
  {
    hide Power;
    Power1();
    Product(1, 16807, 1, 16807, 282475249);
    Product(2, 282475249, 2, 282475249, 984943658);
    Product(4, 984943658, 4, 984943658, 1457850878);
    Product(8, 1457850878, 8, 1457850878, 1137522503);
    Product(16, 1137522503, 16, 1137522503, 1636807826);
    Product(32, 1636807826, 32, 1636807826, 685118024);
    Product(4, 984943658, 64, 685118024, 194847408);
    Product(68, 194847408, 68, 194847408, 832633821);
    Product(136, 832633821, 136, 832633821, 2034837525);
    Product(68, 194847408, 272, 2034837525, 545293947);
    Product(1, 16807, 340, 545293947, 1442645480);
  }

  lemma Power51491()
    ensures Power(51491) == 1070568725
  {
    hide Power;
    Power341();
    Product(341, 1442645480, 341, 1442645480, 1987502657);
    Product(682, 1987502657, 682, 1987502657, 898003988);
    Product(1364, 898003988, 1364, 898003988, 401868524);
    Product(2728, 401868524, 2728, 401868524, 512453959);
    Product(5456, 512453959, 5456, 512453959, 84507850);
    Product(5456, 512453959, 10912, 84507850, 1587893215);
    Product(682, 1987502657, 16368, 1587893215, 1181186726);
    Product(17050, 1181186726, 17050, 1181186726, 1527784817);
    Product(17050, 1181186726, 34100, 1527784817, 1725797375);
    Product(341, 1442645480, 51150, 1725797375, 1070568725);
  }

  lemma Power17043521()
    ensures Power(17043521) == 430777829
  {
    hide Power;
    Power51491();
    Product(51491, 1070568725, 51491, 1070568725, 1687624478);
    Product(102982, 1687624478, 102982, 1687624478, 1062216773);
    Product(205964, 1062216773, 205964, 1062216773, 1167364218);
    Product(411928, 1167364218, 411928, 1167364218, 1215058518);
    Product(823856, 1215058518, 823856, 1215058518, 470117680);
    Product(1647712, 470117680, 1647712, 470117680, 2022983935);
    Product(102982, 1687624478, 3295424, 2022983935, 1312728163);
    Product(3398406, 1312728163, 3398406, 1312728163, 223835466);
    Product(6796812, 223835466, 6796812, 223835466, 1936505080);
    Product(3398406, 1312728163, 13593624, 1936505080, 1814635909);
    Product(51491, 1070568725, 16992030, 1814635909, 430777829);
  }

  lemma LeftQuotients()
    ensures Power(306783378) == 1600955193
    ensures Power(715827882) == 634005911
    ensures Power(1073741823) == 2147483646
    ensures Power(2147483646) == 1
  {
    hide Power;
    Power17043521();
    Product(17043521, 430777829, 17043521, 430777829, 2084867038);
    Product(17043521, 430777829, 34087042, 2084867038, 1568387158);
    Product(51130563, 1568387158, 51130563, 1568387158, 744525991);
    Product(102261126, 744525991, 102261126, 744525991, 1180629309);
    Product(102261126, 744525991, 204522252, 1180629309, 1600955193);
    Product(51130563, 1568387158, 306783378, 1600955193, 634005912);
    Product(357913941, 634005912, 357913941, 634005912, 634005911);
    Product(357913941, 634005912, 715827882, 634005911, 2147483646);
    Product(1073741823, 2147483646, 1073741823, 2147483646, 1);
  }

  lemma Power42966()
    ensures Power(42966) == 1730649443
  {
    hide Power;
    Power126();
    Product(126, 1524325968, 126, 1524325968, 1887638);
    Product(252, 1887638, 252, 1887638, 501848671);
    Product(504, 501848671, 504, 501848671, 1795289992);
    Product(1008, 1795289992, 1008, 1795289992, 1479588719);
    Product(2016, 1479588719, 2016, 1479588719, 1604218471);
    Product(4032, 1604218471, 4032, 1604218471, 808361323);
    Product(504, 501848671, 8064, 808361323, 1554270037);
    Product(8568, 1554270037, 8568, 1554270037, 1406483354);
    Product(17136, 1406483354, 17136, 1406483354, 1326204200);
    Product(8568, 1554270037, 34272, 1326204200, 219632579);
    Product(126, 1524325968, 42840, 219632579, 1730649443);
  }

  lemma RightQuotients()
    ensures Power(6487866) == 759513457
    ensures Power(14221746) == 1013763951
  {
    hide Power;
    Power42966();
    Product(42966, 1730649443, 42966, 1730649443, 1376674263);
    Product(85932, 1376674263, 85932, 1376674263, 1233326474);
    Product(171864, 1233326474, 171864, 1233326474, 1386718363);
    Product(343728, 1386718363, 343728, 1386718363, 762354768);
    Product(687456, 762354768, 687456, 762354768, 1435707898);
    Product(42966, 1730649443, 1374912, 1435707898, 414479749);
    Product(687456, 762354768, 1417878, 414479749, 66515699);
    Product(2105334, 66515699, 2105334, 66515699, 62112380);
    Product(2105334, 66515699, 4210668, 62112380, 1220554435);
    Product(171864, 1233326474, 6316002, 1220554435, 759513457);
    Product(6316002, 1220554435, 6487866, 759513457, 1677595726);
    Product(1417878, 414479749, 12803868, 1677595726, 1013763951);
  }

  lemma Power19026()
    ensures Power(19026) == 1857115997
  {
    hide Power;
    Power126();
    Product(126, 1524325968, 126, 1524325968, 1887638);
    Product(252, 1887638, 252, 1887638, 501848671);
    Product(504, 501848671, 504, 501848671, 1795289992);
    Product(1008, 1795289992, 1008, 1795289992, 1479588719);
    Product(2016, 1479588719, 2016, 1479588719, 1604218471);
    Product(2016, 1479588719, 4032, 1604218471, 227045118);
    Product(252, 1887638, 6048, 227045118, 1386052200);
    Product(6300, 1386052200, 6300, 1386052200, 862572756);
    Product(6300, 1386052200, 12600, 862572756, 1807018204);
    Product(126, 1524325968, 18900, 1807018204, 1857115997);
  }

  lemma Power6297606()
    ensures Power(6297606) == 369197359
  {
    hide Power;
    Power19026();
    Product(19026, 1857115997, 19026, 1857115997, 941890469);
    Product(38052, 941890469, 38052, 941890469, 302242489);
    Product(76104, 302242489, 76104, 302242489, 1639886674);
    Product(152208, 1639886674, 152208, 1639886674, 611144718);
    Product(304416, 611144718, 304416, 611144718, 702745965);
    Product(608832, 702745965, 608832, 702745965, 1203193796);
    Product(38052, 941890469, 1217664, 1203193796, 615995331);
    Product(1255716, 615995331, 1255716, 615995331, 2036876931);
    Product(2511432, 2036876931, 2511432, 2036876931, 654532940);
    Product(1255716, 615995331, 5022864, 654532940, 640206294);
    Product(19026, 1857115997, 6278580, 640206294, 369197359);
  }

  lemma MiddleQuotients()
    ensures Power(69273666) == 16384
    ensures Power(195225786) == 298192073
  {
    hide Power;
    Power6297606();
    Product(6297606, 369197359, 6297606, 369197359, 1532422925);
    Product(12595212, 1532422925, 12595212, 1532422925, 1136308197);
    Product(25190424, 1136308197, 25190424, 1136308197, 326460229);
    Product(12595212, 1532422925, 50380848, 326460229, 757533870);
    Product(6297606, 369197359, 62976060, 757533870, 16384);
    Product(62976060, 757533870, 69273666, 16384, 1126930067);
    Product(62976060, 757533870, 132249726, 1126930067, 298192073);
  }
}
